/**
 * From the registry through the drivers and devices and back: grouped reads, writes and validation
 * taken together, for both protocols.
 */
module EndToEnd {
  import opened TagModel
  import opened Codec
  import opened Mappings
  import opened Planner
  import opened Registries
  import opened Scatter
  import opened GroupedReads
  import opened Straddling
  import opened RoundTrip
  import opened WriteQueues
  import opened WriteBacks
  import opened WriteLists
  import opened DatePanics
  import opened FinsDrivers
  import FinsCycles
  import FinsDevices
  import ModbusCycles
  import ModbusLaws

  // ----- writes and the reads behind them -----

  /** A tag of a configuration, read in one piece. */
  ghost predicate ReadWhole(ms: seq<Mapping>, spaces: seq<Space>, finsMax: nat, defs: Definitions, cells: Cells, m: Mapping)
    requires finsMax >= 1
  {
    m in ms && m.space in spaces && WordSpace(m.space) && Declared(m, defs, cells) && OneChunk(m, SpacePlan(m.space, ms, finsMax))
  }

  /**
   * Read-your-writes through grouped reads, for any list of writes: over the memory they leave, a tag
   * read in one piece shows the value last written to it, if that value survives its encoding.
   */
  lemma {:induction false} LastWriteIsReadBack(style: Style, defs: Definitions, dates: DateRange, spaces: seq<Space>, ms: seq<Mapping>,
                                               finsMax: nat, top: nat,
                                               reqs: seq<WriteRequest>, k: nat, m: Mapping, mem: Memory, cells: Cells)
    requires finsMax >= 1 && DistinctIds(ms) && Validated(ms, top) && DistinctSpaces(spaces) && ReadWhole(ms, spaces, finsMax, defs, cells, m)
    requires AllFit(ms, reqs) && LastWriteTo(ms, reqs, k, m) && dates.Valid() && ReadableBack(style, m, reqs[k].value, dates)
    requires RunsToEnd(style, defs, dates, spaces, ms, finsMax, MemoryAfter(ms, mem, reqs))
    ensures var after := AfterCycle(style, defs, dates, spaces, ms, finsMax, MemoryAfter(ms, mem, reqs), cells);
            m.tagId in after && after[m.tagId] == Cell(reqs[k].value, Good)
  {
    LastWriteIsRead(style, ms, top, reqs, k, m, mem, dates);
    GroupedReadRefinesDirect(style, defs, dates, spaces, ms, m, finsMax, top, MemoryAfter(ms, mem, reqs), cells);
  }

  /** The value has the mapping's type and survives its encoding there. */
  predicate ReadableBack(style: Style, m: Mapping, v: TagValue, dates: DateRange)
  {
    && m.bitOffset < 16 && IsText(v) && v.Matches(m.dataType) && |Encode(v)| <= m.count
    && Survives(v, m.order, m.count - |Encode(v)|, m.bitOffset, FirstDate(style, dates), dates.last)
  }

  /**
   * Non-interference through grouped reads: writes to other tags leave a tag with exactly what a read of
   * its words before them gives.
   */
  lemma {:induction false} UnwrittenTagsReadAsBefore(style: Style, defs: Definitions, dates: DateRange, spaces: seq<Space>,
                                                     ms: seq<Mapping>, finsMax: nat, top: nat,
                                                     reqs: seq<WriteRequest>, n: Mapping, mem: Memory, cells: Cells)
    requires finsMax >= 1 && DistinctIds(ms) && Validated(ms, top) && DistinctSpaces(spaces) && ReadWhole(ms, spaces, finsMax, defs, cells, n)
    requires AllFit(ms, reqs) && Unnamed(reqs, n.tagId) && RunsToEnd(style, defs, dates, spaces, ms, finsMax, MemoryAfter(ms, mem, reqs))
    ensures var after := AfterCycle(style, defs, dates, spaces, ms, finsMax, MemoryAfter(ms, mem, reqs), cells);
            n.tagId in after && after[n.tagId] == DirectCell(style, n, mem, dates, cells[n.tagId])
  {
    UnwrittenIsReadAsBefore(style, ms, top, reqs, n, mem, dates);
    GroupedReadRefinesDirect(style, defs, dates, spaces, ms, n, finsMax, top, MemoryAfter(ms, mem, reqs), cells);
  }

  /** Effects on other tags leave a tag declared, and as it was. */
  lemma {:induction false} StillDeclared(ms: seq<Mapping>, spaces: seq<Space>, finsMax: nat, defs: Definitions, cells: Cells,
                                         es: seq<Effect>, m: Mapping)
    requires finsMax >= 1 && ReadWhole(ms, spaces, finsMax, defs, cells, m)
    ensures ReadWhole(ms, spaces, finsMax, defs, ApplyAll(defs, cells, es), m)
    ensures Own(es, m.tagId) == [] ==> ApplyAll(defs, cells, es)[m.tagId] == cells[m.tagId]
  {
    OnlyOwnEffectsMatter(defs, cells, es, m.tagId);
  }

  /** What is promised of the tags after a drain and the reads behind it. */
  ghost predicate ShowsWrites(style: Style, defs: Definitions, dates: DateRange, spaces: seq<Space>, ms: seq<Mapping>, finsMax: nat,
                              reqs: seq<WriteRequest>, mem: Memory, before: Cells, after: Cells)
    requires finsMax >= 1
  {
    && (forall m: Mapping, k: nat ::
          ReadWhole(ms, spaces, finsMax, defs, before, m) && LastWriteTo(ms, reqs, k, m) && ReadableBack(style, m, reqs[k].value, dates) ==>
          m.tagId in after && after[m.tagId] == Cell(reqs[k].value, Good))
    && (forall n: Mapping :: ReadWhole(ms, spaces, finsMax, defs, before, n) && Unnamed(reqs, n.tagId) ==>
          n.tagId in after && after[n.tagId] == DirectCell(style, n, mem, dates, before[n.tagId]))
  }

  /** The effects concern tags that requests name. */
  ghost predicate ActsOnNamed(es: seq<Effect>, reqs: seq<WriteRequest>)
  {
    forall id: string :: Unnamed(reqs, id) ==> Own(es, id) == []
  }

  /** Reading the memory behind a drain shows its writes, whatever the drain itself did to the named tags. */
  lemma {:induction false} ReadsShowWrites(style: Style, defs: Definitions, dates: DateRange, spaces: seq<Space>, ms: seq<Mapping>,
                                           finsMax: nat, top: nat,
                                           reqs: seq<WriteRequest>, es: seq<Effect>, mem: Memory, cells: Cells)
    requires finsMax >= 1 && DistinctIds(ms) && Validated(ms, top) && DistinctSpaces(spaces) && dates.Valid()
    requires AllFit(ms, reqs) && ActsOnNamed(es, reqs) && RunsToEnd(style, defs, dates, spaces, ms, finsMax, MemoryAfter(ms, mem, reqs))
    ensures ShowsWrites(style, defs, dates, spaces, ms, finsMax, reqs, mem, cells,
                        AfterCycle(style, defs, dates, spaces, ms, finsMax, MemoryAfter(ms, mem, reqs), ApplyAll(defs, cells, es)))
  {
    var after := AfterCycle(style, defs, dates, spaces, ms, finsMax, MemoryAfter(ms, mem, reqs), ApplyAll(defs, cells, es));
    forall m: Mapping, k: nat | ReadWhole(ms, spaces, finsMax, defs, cells, m) && LastWriteTo(ms, reqs, k, m) && ReadableBack(style, m, reqs[k].value, dates)
      ensures m.tagId in after && after[m.tagId] == Cell(reqs[k].value, Good)
    {
      StillDeclared(ms, spaces, finsMax, defs, cells, es, m);
      LastWriteIsReadBack(style, defs, dates, spaces, ms, finsMax, top, reqs, k, m, mem, ApplyAll(defs, cells, es));
    }
    forall n: Mapping | ReadWhole(ms, spaces, finsMax, defs, cells, n) && Unnamed(reqs, n.tagId)
      ensures n.tagId in after && after[n.tagId] == DirectCell(style, n, mem, dates, cells[n.tagId])
    {
      StillDeclared(ms, spaces, finsMax, defs, cells, es, n);
      UnwrittenTagsReadAsBefore(style, defs, dates, spaces, ms, finsMax, top, reqs, n, mem, ApplyAll(defs, cells, es));
    }
  }

  // ----- FINS, down to the bytes -----

  /** Every word of the configuration can be addressed by 24 bits. */
  predicate Within24Bits(ms: seq<Mapping>)
  {
    Plannable(ms, 0x100_0000)
  }

  lemma {:induction false} GroupsBelow24Bits(areas: seq<Space>, ms: seq<Mapping>, finsMax: nat)
    requires finsMax >= 1 && Within24Bits(ms)
    ensures FinsDevices.Below24Bits(FullPlan(areas, ms, finsMax))
  {
    if areas != [] {
      GroupsBelow24Bits(areas[1..], ms, finsMax);
      var first := SpacePlan(areas[0], ms, finsMax);
      forall i | 0 <= i < |first| ensures first[i].start < 0x100_0000 {
        GroupBelow24Bits(areas[0], ms, finsMax, i);
      }
      JoinBelow(first, FullPlan(areas[1..], ms, finsMax));
    }
  }

  lemma {:induction false} JoinBelow(a: seq<ReadGroup>, b: seq<ReadGroup>)
    requires FinsDevices.Below24Bits(a) && FinsDevices.Below24Bits(b)
    ensures FinsDevices.Below24Bits(a + b)
  {
  }

  lemma {:induction false} GroupBelow24Bits(area: Space, ms: seq<Mapping>, finsMax: nat, i: nat)
    requires finsMax >= 1 && Within24Bits(ms) && i < |SpacePlan(area, ms, finsMax)|
    ensures SpacePlan(area, ms, finsMax)[i].start < 0x100_0000
  {
    var own, max, gs := InSpace(ms, area), RequestLimit(area, finsMax), SpacePlan(area, ms, finsMax);
    OwnIsPlannable(ms, area, 0x100_0000);
    PlanReadsMappedWordsOnce(area, own, max, 0x100_0000);
    assert gs[i].Reads(gs[i].start);
    assert ReadBy(gs, gs[i].start);
  }

  lemma {:induction false} AscendingAreDistinct(areas: seq<Space>, c: nat)
    requires CodesAscend(areas, c)
    ensures DistinctSpaces(areas)
  {
    if areas != [] {
      AscendingAreDistinct(areas[1..], areas[0].code + 1);
      forall j | 0 < j < |areas| ensures areas[j] != areas[0] {
        NotBelow(areas[1..], areas[0].code + 1, areas[j]);
      }
    }
  }

  /** A FINS configuration over distinct tags, addressable by 24 bits. */
  ghost predicate FinsDeployed(config: FinsConfig)
  {
    config.Sound() && Within24Bits(config.mappings) && DistinctIds(config.mappings)
  }

  /** The planned groups of a FINS driver. */
  function FinsGroups(config: FinsConfig): seq<ReadGroup>
    requires config.maxWords >= 1
  {
    FullPlan(AreasFrom(config.mappings, 0), config.mappings, config.maxWords)
  }

  lemma {:induction false} FinsGroupsAreSendable(config: FinsConfig)
    requires FinsDeployed(config)
    ensures FinsCycles.AllSendable(FinsGroups(config)) && FinsDevices.Below24Bits(FinsGroups(config))
    ensures DistinctSpaces(AreasFrom(config.mappings, 0))
  {
    AreasAreAreas(config.mappings, 0);
    PlannedGroupsFit(config, AreasFrom(config.mappings, 0));
    GroupsBelow24Bits(AreasFrom(config.mappings, 0), config.mappings, config.maxWords);
    AreasAscend(config.mappings, 0);
    AscendingAreDistinct(AreasFrom(config.mappings, 0), 0);
  }

  /** Over this memory the driver's reads run to their end. */
  predicate FinsRunsToEnd(config: FinsConfig, defs: Definitions, mem: Memory)
    requires config.maxWords >= 1
  {
    RunsToEnd(Fins, defs, config.dates, AreasFrom(config.mappings, 0), config.mappings, config.maxWords, mem)
  }

  lemma {:induction false} FinsGroupsAreWordBacked(config: FinsConfig)
    requires FinsDeployed(config)
    ensures AllWordBacked(FinsGroups(config))
  {
    FinsGroupsAreSendable(config);
    forall i | 0 <= i < |FinsGroups(config)| ensures WordSpace(FinsGroups(config)[i].space) {
      assert FinsCycles.Sendable(FinsGroups(config)[i]);
    }
  }

  /**
   * The condition in the configuration's terms: the reads run to their end exactly if no date that some
   * group gives a defined tag lies behind the last one the library represents.
   */
  lemma {:induction false} FinsRunsToEndExactly(config: FinsConfig, defs: Definitions, mem: Memory)
    requires FinsDeployed(config)
    ensures FinsRunsToEnd(config, defs, mem) <==>
            forall k: nat, m: Mapping :: !LateDateAt(defs, config.dates, FinsGroups(config), mem, k, m)
  {
    FinsGroupsAreWordBacked(config);
    CycleEndsExactly(defs, config.dates, FinsGroups(config), mem);
  }

  /**
   * A FINS cycle over a device that answers faithfully, byte by byte: the requests framed, parsed by the
   * device, answered, framed back and parsed give every tag what a direct read of its own words gives,
   * unless the memory holds a date that panics; then, and only then, the poll task ends.
   */
  lemma {:induction false} FinsCycleRefinesDirectReads(config: FinsConfig, defs: Definitions, wire: FinsCycles.Wire, s: FinsCycles.Station,
                                                       m: Mapping, mem: Memory, cells: Cells)
    requires FinsDeployed(config) && (s.link.Down? || FinsDevices.Clean(s.link))
    requires FinsDevices.ServedFrom(wire, s.sent, mem)
    requires ReadWhole(config.mappings, AreasFrom(config.mappings, 0), config.maxWords, defs, cells, m)
    ensures FinsCycles.AllSendable(FinsGroups(config))
    ensures var run := FinsCycles.Cycle(config.mappings, defs, config.dates, FinsGroups(config), wire, s, []);
            var after := ApplyAll(defs, cells, run.drained.effects + run.polled.effects);
            && (run.polled.panicked <==> !FinsRunsToEnd(config, defs, mem))
            && (!run.polled.panicked ==> m.tagId in after && after[m.tagId] == DirectCell(Fins, m, mem, config.dates, cells[m.tagId]))
  {
    FinsGroupsAreSendable(config);
    FinsDevices.FaithfulReads(defs, config.dates, wire, FinsCycles.Opened(s), FinsGroups(config), mem);
    var es := CycleEffects(Fins, defs, config.dates, FinsGroups(config), mem);
    assert [] + es == es;
    if FinsRunsToEnd(config, defs, mem) {
      GroupedReadRefinesDirect(Fins, defs, config.dates, AreasFrom(config.mappings, 0), config.mappings, m, config.maxWords, 0xFFFF_FFFF, mem, cells);
    }
  }

  /** A network that delivers a drain and the reads behind it to a device with memory `mem` at the start. */
  ghost predicate FinsDelivers(config: FinsConfig, wire: FinsCycles.Wire, s: FinsCycles.Station, reqs: seq<WriteRequest>, mem: Memory)
    requires FinsDeployed(config)
  {
    && (s.link.Down? || FinsDevices.Clean(s.link))
    && FinsDevices.FaithfulDrain(config.mappings, wire, FinsCycles.Opened(s), reqs, mem)
    && FinsDevices.ServedFrom(wire, FinsCycles.WriteAll(config.mappings, wire, FinsCycles.Opened(s), reqs).station.sent,
                              MemoryAfter(config.mappings, mem, reqs))
  }

  lemma {:induction false} Addresses24(ms: seq<Mapping>)
    requires Within24Bits(ms)
    ensures FinsDevices.Addressable(ms)
  {
  }

  /** The FINS cycle leaves the tags as a reading of the memory behind its writes. */
  lemma {:induction false} FinsWriteCycle(config: FinsConfig, defs: Definitions, wire: FinsCycles.Wire, s: FinsCycles.Station,
                                          reqs: seq<WriteRequest>, mem: Memory, cells: Cells)
    requires FinsDeployed(config) && AllFit(config.mappings, reqs) && FinsDelivers(config, wire, s, reqs, mem)
    ensures FinsCycles.AllSendable(FinsGroups(config))
    ensures var run := FinsCycles.Cycle(config.mappings, defs, config.dates, FinsGroups(config), wire, s, reqs);
            && (forall i :: 0 <= i < |reqs| ==> (run.drained.outcomes[i].Ok? <==> Target(config.mappings, reqs[i]).Some?))
            && (run.polled.panicked <==> !FinsRunsToEnd(config, defs, MemoryAfter(config.mappings, mem, reqs)))
            && (!run.polled.panicked ==>
                  ApplyAll(defs, cells, run.drained.effects + run.polled.effects) ==
                  AfterCycle(Fins, defs, config.dates, AreasFrom(config.mappings, 0), config.mappings, config.maxWords,
                             MemoryAfter(config.mappings, mem, reqs), ApplyAll(defs, cells, run.drained.effects)))
  {
    FinsGroupsAreSendable(config);
    Addresses24(config.mappings);
    FinsDevices.WritesThenReads(config.mappings, defs, config.dates, FinsGroups(config), wire, s, reqs, mem);
    var run := FinsCycles.Cycle(config.mappings, defs, config.dates, FinsGroups(config), wire, s, reqs);
    ApplyConcat(defs, cells, run.drained.effects, run.polled.effects);
  }

  /**
   * The whole FINS path, for any drain of fitting writes to validated mappings: exactly the requests
   * with a target are confirmed; the same cycle reads back the value last written to each tag; and tags
   * not written keep what their words say, unless what was written or was there before is a date that
   * panics. Every step goes through the bytes of the frames.
   */
  lemma {:induction false} FinsReadsItsWrites(config: FinsConfig, defs: Definitions, wire: FinsCycles.Wire, s: FinsCycles.Station,
                                              reqs: seq<WriteRequest>,
                                              mem: Memory, cells: Cells)
    requires FinsDeployed(config) && Validated(config.mappings, 0xFFFF_FFFF) && config.dates.Valid()
    requires AllFit(config.mappings, reqs) && FinsDelivers(config, wire, s, reqs, mem)
    ensures FinsCycles.AllSendable(FinsGroups(config))
    ensures var run := FinsCycles.Cycle(config.mappings, defs, config.dates, FinsGroups(config), wire, s, reqs);
            && (forall i :: 0 <= i < |reqs| ==> (run.drained.outcomes[i].Ok? <==> Target(config.mappings, reqs[i]).Some?))
            && (run.polled.panicked <==> !FinsRunsToEnd(config, defs, MemoryAfter(config.mappings, mem, reqs)))
            && (!run.polled.panicked ==>
                  ShowsWrites(Fins, defs, config.dates, AreasFrom(config.mappings, 0), config.mappings, config.maxWords, reqs, mem, cells,
                              ApplyAll(defs, cells, run.drained.effects + run.polled.effects)))
  {
    FinsGroupsAreSendable(config);
    FinsWriteCycle(config, defs, wire, s, reqs, mem, cells);
    var drained := FinsCycles.WriteAll(config.mappings, wire, FinsCycles.Opened(s), reqs).effects;
    forall id: string | Unnamed(reqs, id) ensures Own(drained, id) == [] {
      FinsDevices.UnnamedTagsStay(config.mappings, wire, FinsCycles.Opened(s), reqs, id);
    }
    if FinsRunsToEnd(config, defs, MemoryAfter(config.mappings, mem, reqs)) {
      ReadsShowWrites(Fins, defs, config.dates, AreasFrom(config.mappings, 0), config.mappings, config.maxWords, 0xFFFF_FFFF, reqs, drained, mem, cells);
    }
  }

  // ----- Modbus -----

  /** A server that stores what it acknowledges and answers the reads behind a drain from its memory. */
  ghost predicate ModbusServes(ms: seq<Mapping>, net: ModbusCycles.Network, c: ModbusCycles.Client, reqs: seq<WriteRequest>, mem: Memory)
    requires ModbusCycles.InTables(ms)
  {
    && ModbusCycles.Dialed(c, net).connected && ModbusLaws.FaithfulDrain(ms, net, c, reqs)
    && ModbusLaws.ServedFrom(net, ModbusCycles.WriteAll(ms, net, c, reqs).client.called, MemoryAfter(ms, mem, reqs))
  }

  /** The whole Modbus path, likewise, for any order of the functions. */
  lemma {:induction false} ModbusReadsItsWrites(ms: seq<Mapping>, dates: DateRange, defs: Definitions, order: seq<Space>,
                                                net: ModbusCycles.Network, c: ModbusCycles.Client,
                                                reqs: seq<WriteRequest>, mem: Memory, cells: Cells)
    requires ModbusCycles.InTables(ms) && DistinctIds(ms) && Validated(ms, 0xFFFF) && dates.Valid()
    requires DistinctSpaces(order) && ModbusCycles.AllReadable(FullPlan(order, ms, 1))
    requires AllFit(ms, reqs) && ModbusServes(ms, net, c, reqs, mem)
    ensures var run := ModbusCycles.Cycle(ms, defs, dates, FullPlan(order, ms, 1), net, c, reqs);
            && run.completed && |run.outcomes| == |reqs|
            && (forall i :: 0 <= i < |reqs| ==> (run.outcomes[i].Ok? <==> Target(ms, reqs[i]).Some?))
            && ShowsWrites(Modbus, defs, dates, order, ms, 1, reqs, mem, cells, ApplyAll(defs, cells, run.effects))
  {
    ModbusLaws.DrainIsCarriedOut(ms, net, c, reqs);
    ModbusLaws.FaithfulCycle(ms, defs, dates, order, net, c, reqs, MemoryAfter(ms, mem, reqs), cells);
    var drained := ModbusCycles.WriteAll(ms, net, c, reqs).effects;
    forall id: string | Unnamed(reqs, id) ensures Own(drained, id) == [] {
      ModbusLaws.UnnamedTagsStay(ms, net, c, reqs, id);
    }
    ModbusRunsToEnd(defs, dates, order, ms, MemoryAfter(ms, mem, reqs));
    ReadsShowWrites(Modbus, defs, dates, order, ms, 1, 0xFFFF, reqs, drained, mem, cells);
  }
}
