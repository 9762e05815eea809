/** Grouped reads refine direct reads: the results over whole plans, all spaces and any memory. */
module GroupedReads {
  import opened Words
  import opened WordOrders
  import opened TagModel
  import opened Codec
  import opened Mappings
  import opened Planner
  import opened Registries
  import opened Scatter

  /** Registers and coils one Modbus request may read (sections 6.3 and 6.1 of the MODBUS Application Protocol Specification V1.1b3). */
  const MAX_REGISTERS := 125
  const MAX_COILS := 2000

  /** Words or coils one request of the space may read; the FINS limit is configured. */
  function RequestLimit(s: Space, finsMax: nat): nat
  {
    if s.Area? then finsMax else if WordSpace(s) then MAX_REGISTERS else MAX_COILS
  }

  function SpacePlan(s: Space, ms: seq<Mapping>, finsMax: nat): seq<ReadGroup>
    requires finsMax >= 1
  {
    Plan(s, InSpace(ms, s), RequestLimit(s, finsMax))
  }

  /** The requests of a cycle that goes through `spaces` in order. */
  function FullPlan(spaces: seq<Space>, ms: seq<Mapping>, finsMax: nat): seq<ReadGroup>
    requires finsMax >= 1
  {
    if spaces == [] then [] else SpacePlan(spaces[0], ms, finsMax) + FullPlan(spaces[1..], ms, finsMax)
  }

  predicate DistinctSpaces(spaces: seq<Space>)
  {
    forall i, j :: 0 <= i < j < |spaces| ==> spaces[i] != spaces[j]
  }

  /** A configuration a driver can run: tag ids distinct, arithmetic in range. */
  ghost predicate Configured(ms: seq<Mapping>, limit: nat)
  {
    DistinctIds(ms) && Plannable(ms, limit)
  }

  // ----- who is in a group -----

  lemma {:induction false} RunMembers(ms: seq<Mapping>)
    requires DistinctIds(ms)
    ensures forall i :: 0 <= i < |Runs(ms)| ==> DistinctIds(Runs(ms)[i].members)
    ensures forall i, x :: 0 <= i < |Runs(ms)| && x in Runs(ms)[i].members ==> x in ms
  {
    if ms != [] {
      var init, m := ms[..|ms| - 1], ms[|ms| - 1];
      RunMembers(init);
      assert ms == init + [m];
      NewId(init, m);
      AbsorbDistinct(init, Runs(init), m);
    }
  }

  lemma {:induction false} NewId(init: seq<Mapping>, m: Mapping)
    requires DistinctIds(init + [m])
    ensures forall x :: x in init ==> x.tagId != m.tagId
  {
    forall x | x in init ensures x.tagId != m.tagId {
      var k :| 0 <= k < |init| && init[k] == x;
      assert (init + [m])[k] == x && (init + [m])[|init|] == m;
    }
  }

  lemma {:induction false} AbsorbDistinct(init: seq<Mapping>, runs: seq<Run>, m: Mapping)
    requires forall i :: 0 <= i < |runs| ==> DistinctIds(runs[i].members)
    requires forall i, x :: 0 <= i < |runs| && x in runs[i].members ==> x in init
    requires forall x :: x in init ==> x.tagId != m.tagId
    ensures var rs := Absorb(runs, m);
            && (forall i :: 0 <= i < |rs| ==> DistinctIds(rs[i].members))
            && (forall i, x :: 0 <= i < |rs| && x in rs[i].members ==> x in init + [m])
  {
    var rs := Absorb(runs, m);
    if runs != [] && m.address <= runs[|runs| - 1].last + 1 {
      var old' := runs[|runs| - 1].members;
      forall i | 0 <= i < |old'| ensures old'[i].tagId != m.tagId {
        assert old'[i] in old';
      }
      assert DistinctIds(old' + [m]);
    }
  }

  /** The mappings listed with a planned group are mappings of its space with distinct ids. */
  lemma {:induction false} GroupMembers(s: Space, ms: seq<Mapping>, finsMax: nat, limit: nat, k: nat)
    requires finsMax >= 1 && Configured(ms, limit) && k < |SpacePlan(s, ms, finsMax)|
    ensures var g := SpacePlan(s, ms, finsMax)[k];
            DistinctIds(g.members) && forall x :: x in g.members ==> x in ms && x.space == s
  {
    var own := InSpace(ms, s);
    var sorted := SortByAddress(own);
    InSpaceMembers(ms, s);
    InSpaceKeepsDistinct(ms, s);
    SortKeepsDistinct(own);
    SortSorts(own);
    RunMembers(sorted);
    OwnIsPlannable(ms, s, limit);
    PlanShape(s, own, RequestLimit(s, finsMax), limit);
    assert InSomeRun(SpacePlan(s, ms, finsMax)[k], Runs(sorted));
  }

  /**
   * No request reads more than the space allows, 125 registers or 2000 coils with Modbus and the configured
   * number of words with FINS, and one that reads less stops in front of a word that no mapping covers.
   */
  lemma {:induction false} RequestsAreFull(s: Space, ms: seq<Mapping>, finsMax: nat, limit: nat, i: nat)
    requires finsMax >= 1 && Configured(ms, limit) && i < |SpacePlan(s, ms, finsMax)|
    ensures var g := SpacePlan(s, ms, finsMax)[i];
            var most := match s
                        case Area(_) => finsMax
                        case Table(op) => if op == HoldingRegisters || op == InputRegisters then 125 else 2000;
            && 1 <= g.count <= most
            && (g.count < most ==> forall m :: m in ms && m.space == s ==> !m.Covers(g.start + g.count))
  {
    var own := InSpace(ms, s);
    InSpaceMembers(ms, s);
    OwnIsPlannable(ms, s, limit);
    PlanReadsMappedWordsOnce(s, own, RequestLimit(s, finsMax), limit);
    if SpacePlan(s, ms, finsMax)[i].count < RequestLimit(s, finsMax) {
      NothingBehind(s, own, RequestLimit(s, finsMax), limit, i);
      forall m | m in ms && m.space == s ensures !m.Covers(SpacePlan(s, ms, finsMax)[i].start + SpacePlan(s, ms, finsMax)[i].count) {
        assert m in own;
      }
    }
  }

  /** Behind a request below the limit lies a word that is not mapped. */
  lemma {:induction false} NothingBehind(s: Space, own: seq<Mapping>, max: nat, limit: nat, i: nat)
    requires max >= 1 && Plannable(own, limit) && i < |Plan(s, own, max)| && Plan(s, own, max)[i].count < max
    ensures !Mapped(own, Plan(s, own, max)[i].start + Plan(s, own, max)[i].count)
  {
    var gs, runs := Plan(s, own, max), Runs(SortByAddress(own));
    var a := gs[i].start + gs[i].count;
    PlanReadsExactlyMapped(s, own, max, limit, a);
    assert GoodGroups(s, runs, max, gs) by {
      PlanShape(s, own, max, limit);
    }
    forall k | 0 <= k < |gs| ensures !gs[k].Reads(a) {
      NoneFollows(s, runs, max, gs, i, k);
    }
  }

  lemma {:induction false} NoneFollows(s: Space, runs: seq<Run>, max: nat, gs: seq<ReadGroup>, i: nat, k: nat)
    requires GoodGroups(s, runs, max, gs) && i < |gs| && k < |gs| && gs[i].count < max
    ensures !gs[k].Reads(gs[i].start + gs[i].count)
  {
    if k < i {
      assert Separate(runs, gs[k], gs[i], max);
    } else if i < k {
      assert Separate(runs, gs[i], gs[k], max) && InSomeRun(gs[i], runs);
    }
  }

  lemma {:induction false} OwnIsPlannable(ms: seq<Mapping>, s: Space, limit: nat)
    requires Plannable(ms, limit)
    ensures Plannable(InSpace(ms, s), limit)
  {
    InSpaceMembers(ms, s);
    var own := InSpace(ms, s);
    forall i | 0 <= i < |own| ensures own[i].count >= 1 && own[i].End() <= limit {
      assert own[i] in own;
      var k :| 0 <= k < |ms| && ms[k] == own[i];
    }
  }

  lemma {:induction false} OwnerIsSole(ms: seq<Mapping>, m: Mapping, members: seq<Mapping>)
    requires DistinctIds(ms) && m in ms && forall x :: x in members ==> x in ms
    ensures SoleOwner(m, members)
  {
    var i :| 0 <= i < |ms| && ms[i] == m;
    forall k | 0 <= k < |members| && members[k].tagId == m.tagId ensures members[k] == m {
      assert members[k] in members;
      var j :| 0 <= j < |ms| && ms[j] == members[k];
    }
  }

  /** Its own space's plan serves a mapping. */
  lemma {:induction false} PlanServes(ms: seq<Mapping>, m: Mapping, finsMax: nat, limit: nat)
    requires finsMax >= 1 && Configured(ms, limit) && m in ms
    ensures Serving(m, SpacePlan(m.space, ms, finsMax))
  {
    var own, max, gs := InSpace(ms, m.space), RequestLimit(m.space, finsMax), SpacePlan(m.space, ms, finsMax);
    InSpaceMembers(ms, m.space);
    OwnIsPlannable(ms, m.space, limit);
    PlanReadsMappedWordsOnce(m.space, own, max, limit);
    var i :| 0 <= i < |own| && own[i] == m;
    forall a | m.Covers(a) ensures ReadBy(gs, a) {
      assert own[i].Covers(a);
      assert Mapped(own, a);
    }
    forall k | 0 <= k < |gs| && Touches(m, gs[k]) ensures m in gs[k].members {
      TouchedListsMember(own, m, m.space, max, limit, k);
    }
  }

  lemma {:induction false} TouchedListsMember(own: seq<Mapping>, m: Mapping, s: Space, max: nat, limit: nat, k: nat)
    requires max >= 1 && Plannable(own, limit) && m in own
    requires k < |Plan(s, own, max)| && Touches(m, Plan(s, own, max)[k])
    ensures m in Plan(s, own, max)[k].members
  {
    var runs, g := Runs(SortByAddress(own)), Plan(s, own, max)[k];
    PlanShape(s, own, max, limit);
    SortSorts(own);
    HasWords(own, m, limit);
    assert InSomeRun(g, runs);
    SameRun(SortByAddress(own), runs, m, g);
  }

  lemma {:induction false} SameRun(sorted: seq<Mapping>, runs: seq<Run>, m: Mapping, g: ReadGroup)
    requires GoodRuns(sorted, runs) && m in sorted && m.count >= 1
    requires InSomeRun(g, runs) && Touches(m, g) && g.count >= 1
    ensures m in g.members
  {
    var i :| 0 <= i < |runs| && m in runs[i].members;
    var j :| 0 <= j < |runs| && WithinRun(g, runs[j]);
    MemberRange(runs[i], m);
    OneRunHolds(runs, i, j, OverlapStart(m, g));
  }

  lemma {:induction false} MemberRange(r: Run, m: Mapping)
    requires Tight(r) && m in r.members
    ensures r.first <= m.address && m.End() <= r.last + 1
  {
  }

  lemma {:induction false} OneRunHolds(runs: seq<Run>, i: nat, j: nat, a: int)
    requires Apart(runs) && i < |runs| && j < |runs|
    requires runs[i].first <= a <= runs[i].last && runs[j].first <= a <= runs[j].last
    ensures i == j
  {
  }

  // ----- the effects of a whole cycle on one tag -----

  /** Every group of the full plan is clean with respect to mapping `m`. */
  lemma {:induction false} FullPlanIsClean(spaces: seq<Space>, ms: seq<Mapping>, m: Mapping, finsMax: nat, limit: nat)
    requires finsMax >= 1 && Configured(ms, limit) && m in ms
    ensures forall i :: 0 <= i < |FullPlan(spaces, ms, finsMax)| ==>
              var g := FullPlan(spaces, ms, finsMax)[i]; DistinctIds(g.members) && SoleOwner(m, g.members)
  {
    if spaces != [] {
      FullPlanIsClean(spaces[1..], ms, m, finsMax, limit);
      var first := SpacePlan(spaces[0], ms, finsMax);
      forall i | 0 <= i < |first| ensures DistinctIds(first[i].members) && SoleOwner(m, first[i].members) {
        GroupMembers(spaces[0], ms, finsMax, limit, i);
        OwnerIsSole(ms, m, first[i].members);
      }
    }
  }

  lemma {:induction false} OtherSpacesDoNotList(spaces: seq<Space>, ms: seq<Mapping>, m: Mapping, finsMax: nat, limit: nat)
    requires finsMax >= 1 && Configured(ms, limit) && m.space !in spaces
    ensures forall i :: 0 <= i < |FullPlan(spaces, ms, finsMax)| ==> m !in FullPlan(spaces, ms, finsMax)[i].members
  {
    if spaces != [] {
      assert spaces[0] in spaces;
      OtherSpacesDoNotList(spaces[1..], ms, m, finsMax, limit);
      var first := SpacePlan(spaces[0], ms, finsMax);
      forall i | 0 <= i < |first| ensures m !in first[i].members {
        GroupMembers(spaces[0], ms, finsMax, limit, i);
      }
    }
  }

  /** Whatever the order of the spaces, a mapping sees the groups of its own space only. */
  lemma {:induction false} OwnSpaceOnly(style: Style, defs: Definitions, dates: DateRange, spaces: seq<Space>, ms: seq<Mapping>, m: Mapping,
                                        finsMax: nat, limit: nat, mem: Memory)
    requires finsMax >= 1 && Configured(ms, limit) && DistinctSpaces(spaces) && m.space in spaces
    ensures MemberEffects(style, defs, dates, m, FullPlan(spaces, ms, finsMax), mem) ==
            MemberEffects(style, defs, dates, m, SpacePlan(m.space, ms, finsMax), mem)
  {
    var first, rest := SpacePlan(spaces[0], ms, finsMax), FullPlan(spaces[1..], ms, finsMax);
    MemberEffectsConcat(style, defs, dates, m, first, rest, mem);
    if spaces[0] == m.space {
      forall i | 0 <= i < |spaces| - 1 ensures spaces[1..][i] != m.space {
      }
      OtherSpacesDoNotList(spaces[1..], ms, m, finsMax, limit);
      NotAMember(style, defs, dates, m, rest, mem);
    } else {
      OwnSpaceOnly(style, defs, dates, spaces[1..], ms, m, finsMax, limit, mem);
      forall i | 0 <= i < |first| ensures m !in first[i].members {
        GroupMembers(spaces[0], ms, finsMax, limit, i);
      }
      NotAMember(style, defs, dates, m, first, mem);
    }
  }

  /** The effects of a fully answered cycle on the tag of mapping `m`. */
  lemma {:induction false} TagEffects(style: Style, defs: Definitions, dates: DateRange, spaces: seq<Space>, ms: seq<Mapping>, m: Mapping,
                                      finsMax: nat, limit: nat, mem: Memory)
    requires finsMax >= 1 && Configured(ms, limit) && DistinctSpaces(spaces) && m in ms && m.space in spaces
    ensures Own(CycleEffects(style, defs, dates, FullPlan(spaces, ms, finsMax), mem), m.tagId) ==
            MemberEffects(style, defs, dates, m, SpacePlan(m.space, ms, finsMax), mem)
  {
    FullPlanIsClean(spaces, ms, m, finsMax, limit);
    OwnCycleEffects(style, defs, dates, m, FullPlan(spaces, ms, finsMax), mem);
    OwnSpaceOnly(style, defs, dates, spaces, ms, m, finsMax, limit, mem);
  }

  // ----- main results -----

  /** A cycle through the spaces, answered from memory, runs to its end. */
  predicate RunsToEnd(style: Style, defs: Definitions, dates: DateRange, spaces: seq<Space>, ms: seq<Mapping>, finsMax: nat, mem: Memory)
    requires finsMax >= 1
  {
    !CyclePanics(style, defs, dates, FullPlan(spaces, ms, finsMax), mem)
  }

  lemma {:induction false} ModbusRunsToEnd(defs: Definitions, dates: DateRange, spaces: seq<Space>, ms: seq<Mapping>, mem: Memory)
    ensures RunsToEnd(Modbus, defs, dates, spaces, ms, 1, mem)
  {
    ModbusNeverPanics(defs, dates, FullPlan(spaces, ms, 1), mem);
  }

  /** The registry cells after a cycle in which every request is answered from memory, and that runs to its end. */
  function AfterCycle(style: Style, defs: Definitions, dates: DateRange, spaces: seq<Space>, ms: seq<Mapping>, finsMax: nat,
                      mem: Memory, cells: Cells): Cells
    requires finsMax >= 1
  {
    ApplyAll(defs, cells, CycleEffects(style, defs, dates, FullPlan(spaces, ms, finsMax), mem))
  }

  /** The tag and its definition agree with the mapping. */
  ghost predicate Declared(m: Mapping, defs: Definitions, cells: Cells)
  {
    m.tagId in defs && m.tagId in cells && defs[m.tagId].dataType == m.dataType
  }

  /** The value read straight from the mapping's own words. */
  function DirectRead(style: Style, m: Mapping, mem: Memory, dates: DateRange): Decoded
  {
    DecodeAs(style, m, ToBytes(WordsAt(mem, m.space, m.address, m.count)), dates)
  }

  /**
   * Grouped read refines direct read: in a cycle that runs to its end, whatever other mappings share its
   * run, a word-backed tag that lies in one chunk ends with exactly the value a read of its own words alone decodes to, marked
   * good, or with the driver's failure mark if that read does not decode.
   */
  lemma {:induction false} GroupedReadRefinesDirect(style: Style, defs: Definitions, dates: DateRange, spaces: seq<Space>, ms: seq<Mapping>,
                                                    m: Mapping,
                                                    finsMax: nat, limit: nat, mem: Memory, cells: Cells)
    requires finsMax >= 1 && Configured(ms, limit) && DistinctSpaces(spaces) && m in ms && m.space in spaces
    requires WordSpace(m.space) && Declared(m, defs, cells)
    requires OneChunk(m, SpacePlan(m.space, ms, finsMax)) && RunsToEnd(style, defs, dates, spaces, ms, finsMax, mem)
    ensures var after := AfterCycle(style, defs, dates, spaces, ms, finsMax, mem, cells);
            && m.tagId in after
            && after[m.tagId] == match DirectRead(style, m, mem, dates)
                                 case Ok(v) => Cell(v, Good)
                                 case Err(_) => Cell(cells[m.tagId].value, if style.Fins? then Error(DecodeFailed) else ConfigError)
  {
    var es := CycleEffects(style, defs, dates, FullPlan(spaces, ms, finsMax), mem);
    TagEffects(style, defs, dates, spaces, ms, m, finsMax, limit, mem);
    OnlyOwnEffectsMatter(defs, cells, es, m.tagId);
    PlanServes(ms, m, finsMax, limit);
    HasWords(ms, m, limit);
    OneChunkIsDirect(style, defs, dates, m, SpacePlan(m.space, ms, finsMax), mem);
    var e := DirectEffect(style, defs, dates, m, mem);
    LastEffect(defs, cells[m.tagId], [e]);
    DecodedHasType(style, m, ToBytes(WordsAt(mem, m.space, m.address, m.count)), dates);
  }

  lemma {:induction false} HasWords(ms: seq<Mapping>, m: Mapping, limit: nat)
    requires Plannable(ms, limit) && m in ms
    ensures m.count >= 1 && m.End() <= limit
  {
    var i :| 0 <= i < |ms| && ms[i] == m;
  }

  lemma {:induction false} DecodedHasType(style: Style, m: Mapping, bytes: seq<Byte>, dates: DateRange)
    ensures var r := DecodeAs(style, m, bytes, dates); r.Ok? ==> r.value.Matches(m.dataType)
  {
    DecodedType(m.dataType, Reordered(m.order, bytes), m.bitOffset, dates);
  }

  /** The last effect decides the quality, and the value if it publishes one. */
  lemma {:induction false} LastEffect(defs: Definitions, c: Cell, es: seq<Effect>)
    requires es != []
    ensures OnCellAll(defs, c, es) == OnCell(defs, OnCellAll(defs, c, es[..|es| - 1]), es[|es| - 1])
    decreases |es|
  {
    if |es| > 1 {
      LastEffect(defs, OnCell(defs, c, es[0]), es[1..]);
      assert es[1..][..|es| - 2] == es[..|es| - 1][1..];
    } else {
      assert es[1..] == [] && es[..0] == [];
    }
  }

  /** Effects keep the value's type a definition asks for, so a reading order of the spaces cannot matter. */
  lemma {:induction false} CycleOrderDoesNotMatter(style: Style, defs: Definitions, dates: DateRange, a: seq<Space>, b: seq<Space>, ms: seq<Mapping>,
                                                   finsMax: nat, limit: nat, mem: Memory, cells: Cells)
    requires finsMax >= 1 && Configured(ms, limit) && DistinctSpaces(a) && DistinctSpaces(b)
    requires forall i :: 0 <= i < |ms| ==> ms[i].space in a && ms[i].space in b
    requires RunsToEnd(style, defs, dates, a, ms, finsMax, mem) && RunsToEnd(style, defs, dates, b, ms, finsMax, mem)
    ensures AfterCycle(style, defs, dates, a, ms, finsMax, mem, cells) == AfterCycle(style, defs, dates, b, ms, finsMax, mem, cells)
  {
    var x := AfterCycle(style, defs, dates, a, ms, finsMax, mem, cells);
    var y := AfterCycle(style, defs, dates, b, ms, finsMax, mem, cells);
    forall id ensures id in x <==> id in y
      ensures id in x ==> x[id] == y[id]
    {
      OnlyOwnEffectsMatter(defs, cells, CycleEffects(style, defs, dates, FullPlan(a, ms, finsMax), mem), id);
      OnlyOwnEffectsMatter(defs, cells, CycleEffects(style, defs, dates, FullPlan(b, ms, finsMax), mem), id);
      SameOwnEffects(style, defs, dates, a, b, ms, finsMax, limit, mem, id);
    }
  }

  lemma {:induction false} SameOwnEffects(style: Style, defs: Definitions, dates: DateRange, a: seq<Space>, b: seq<Space>, ms: seq<Mapping>,
                                          finsMax: nat, limit: nat, mem: Memory, id: string)
    requires finsMax >= 1 && Configured(ms, limit) && DistinctSpaces(a) && DistinctSpaces(b)
    requires forall i :: 0 <= i < |ms| ==> ms[i].space in a && ms[i].space in b
    ensures Own(CycleEffects(style, defs, dates, FullPlan(a, ms, finsMax), mem), id) ==
            Own(CycleEffects(style, defs, dates, FullPlan(b, ms, finsMax), mem), id)
  {
    if i :| 0 <= i < |ms| && ms[i].tagId == id {
      TagEffects(style, defs, dates, a, ms, ms[i], finsMax, limit, mem);
      TagEffects(style, defs, dates, b, ms, ms[i], finsMax, limit, mem);
    } else {
      assert NoOwner(id, ms);
      StrangerEffects(style, defs, dates, a, ms, finsMax, limit, mem, id);
      StrangerEffects(style, defs, dates, b, ms, finsMax, limit, mem, id);
    }
  }

  lemma {:induction false} StrangerEffects(style: Style, defs: Definitions, dates: DateRange, spaces: seq<Space>, ms: seq<Mapping>,
                                           finsMax: nat, limit: nat, mem: Memory, id: string)
    requires finsMax >= 1 && Configured(ms, limit) && NoOwner(id, ms)
    ensures Own(CycleEffects(style, defs, dates, FullPlan(spaces, ms, finsMax), mem), id) == []
  {
    UnmappedTag(spaces, ms, finsMax, limit, id);
    StrangerIsUntouched(style, defs, dates, id, FullPlan(spaces, ms, finsMax), mem);
  }

  lemma {:induction false} NoOwnerAmong(ms: seq<Mapping>, members: seq<Mapping>, id: string)
    requires NoOwner(id, ms) && forall x :: x in members ==> x in ms
    ensures NoOwner(id, members)
  {
    forall k | 0 <= k < |members| ensures members[k].tagId != id {
      assert members[k] in members;
      var j :| 0 <= j < |ms| && ms[j] == members[k];
    }
  }

  lemma {:induction false} UnmappedTag(spaces: seq<Space>, ms: seq<Mapping>, finsMax: nat, limit: nat, id: string)
    requires finsMax >= 1 && Configured(ms, limit)
    requires NoOwner(id, ms)
    ensures forall i :: 0 <= i < |FullPlan(spaces, ms, finsMax)| ==> NoOwner(id, FullPlan(spaces, ms, finsMax)[i].members)
  {
    if spaces != [] {
      UnmappedTag(spaces[1..], ms, finsMax, limit, id);
      var first := SpacePlan(spaces[0], ms, finsMax);
      var rest := FullPlan(spaces[1..], ms, finsMax);
      var gs: seq<ReadGroup> := first + rest;
      forall i | 0 <= i < |gs| ensures NoOwner(id, gs[i].members) {
        if i < |first| {
          GroupMembers(spaces[0], ms, finsMax, limit, i);
          NoOwnerAmong(ms, first[i].members, id);
          assert gs[i] == first[i];
        } else {
          assert gs[i] == rest[i - |first|];
        }
      }
    }
  }
}
