/** What is published for a coil: coils are packed sixteen a word but sliced one word a coil. */
module CoilReads {
  import opened Words
  import opened WordOrders
  import opened TagModel
  import opened Codec
  import opened Mappings
  import opened Planner
  import opened Registries
  import opened CoilPacking
  import opened Scatter
  import opened GroupedReads

  /** The bit of the packed word a mapping's bit offset selects, after the byte order is applied. */
  function BitIndex(order: WordOrder, bitOffset: Byte): nat
  {
    if order == ABCD || order == CDAB then bitOffset else (bitOffset + 8) % 16
  }

  /** Bits of a number split at bit `n`. */
  lemma {:induction false} BitOfSum(n: nat, high: nat, low: nat, b: nat)
    requires low < Pow2(n)
    ensures Bit(Pow2(n) * high + low, b) <==> if b < n then Bit(low, b) else Bit(high, b - n)
  {
    if n > 0 {
      var half := Pow2(n - 1) * high;
      assert Pow2(n) * high == 2 * half;
      if b > 0 {
        assert (2 * half + low) / 2 == half + low / 2;
        BitOfSum(n - 1, high, low / 2, b - 1);
      } else {
        assert (2 * half + low) % 2 == low % 2;
      }
    } else {
      assert Pow2(0) * high == high;
    }
  }

  lemma {:induction false} BitOfBytes(hi: Byte, lo: Byte, b: nat)
    ensures Bit(JoinBytes(hi, lo), b) <==> if b < 8 then Bit(lo, b) else Bit(hi, b - 8)
  {
    assert Pow2(8) == 256 by {
      assert Pow2(4) == 16;
      assert Pow2(8) == 16 * Pow2(4);
    }
    BitOfSum(8, hi, lo, b);
  }

  lemma {:induction false} SmallNumbersEnd(x: nat, n: nat, b: nat)
    requires x < Pow2(n) && n <= b
    ensures !Bit(x, b)
  {
    if n == 0 {
      ZeroHasNoBits(b);
    } else {
      SmallNumbersEnd(x / 2, n - 1, b - 1);
    }
  }

  lemma {:induction false} TwoBytesReordered(order: WordOrder, hi: Byte, lo: Byte)
    ensures Reordered(order, [hi, lo]) == if order == ABCD || order == CDAB then [hi, lo] else [lo, hi]
  {
  }

  lemma {:induction false} BoolOfTwoBytes(hi: Byte, lo: Byte, bitOffset: Byte, dates: DateRange)
    ensures DecodeModbus(BoolType, [hi, lo], bitOffset, dates) == Ok(Bool(Bit(JoinBytes(hi, lo), bitOffset)))
  {
  }

  /** The bit of a swapped word is the bit eight places on, around the word. */
  lemma {:induction false} SwappedBit(hi: Byte, lo: Byte, b: nat)
    requires b < 16
    ensures Bit(JoinBytes(lo, hi), b) <==> Bit(JoinBytes(hi, lo), (b + 8) % 16)
  {
    var c := if b < 8 then b + 8 else b - 8;
    assert c == (b + 8) % 16;
    BitOfBytes(lo, hi, b);
    BitOfBytes(hi, lo, c);
  }

  lemma {:induction false} OneWordBytes(w: Word)
    ensures ToBytes([w]) == [w / 256, w % 256] && JoinBytes(w / 256, w % 256) == w
  {
    assert [w][1..] == [];
  }

  /** Whatever the order, the decoder reads bit `bitOffset` of the word it sees. */
  lemma {:induction false} SelectedBit(order: WordOrder, hi: Byte, lo: Byte, bitOffset: Byte)
    requires bitOffset < 16
    ensures Bit(if order == ABCD || order == CDAB then JoinBytes(hi, lo) else JoinBytes(lo, hi), bitOffset) <==>
            Bit(JoinBytes(hi, lo), BitIndex(order, bitOffset))
  {
    SwappedBit(hi, lo, bitOffset);
  }

  /** Decoding two bytes as a boolean. */
  lemma {:induction false} DecodedBytes(m: Mapping, hi: Byte, lo: Byte, dates: DateRange)
    requires m.dataType == BoolType
    ensures DecodeAs(Modbus, m, [hi, lo], dates) ==
            Ok(Bool(Bit(if m.order == ABCD || m.order == CDAB then JoinBytes(hi, lo) else JoinBytes(lo, hi), m.bitOffset)))
  {
    TwoBytesReordered(m.order, hi, lo);
    BoolOfTwoBytes(hi, lo, m.bitOffset, dates);
    BoolOfTwoBytes(lo, hi, m.bitOffset, dates);
  }

  /** Decoding the two bytes of a packed word as a boolean reads the selected bit. */
  lemma {:induction false} DecodedBit(m: Mapping, w: Word, dates: DateRange)
    requires m.dataType == BoolType && m.bitOffset < 16
    ensures DecodeAs(Modbus, m, ToBytes([w]), dates) == Ok(Bool(Bit(w, BitIndex(m.order, m.bitOffset))))
  {
    var hi, lo := w / 256, w % 256;
    OneWordBytes(w);
    DecodedBytes(m, hi, lo, dates);
    SelectedBit(m.order, hi, lo, m.bitOffset);
  }

  /** The coil that decides what is published for the coil at offset `o` of a chunk. */
  function DecidingCoil(m: Mapping, o: nat): nat
  {
    16 * o + BitIndex(m.order, m.bitOffset)
  }

  /** The effect on a one-coil mapping at offset `o` of a chunk of `n` coils. */
  function CoilEffect(m: Mapping, coils: seq<bool>, o: nat): Effect
  {
    if o < (|coils| + 15) / 16 then
      Publish(m.tagId, Bool(DecidingCoil(m, o) < |coils| && coils[DecidingCoil(m, o)]))
    else Mark(m.tagId, ConfigError)
  }

  /** Coils of a chunk, cut and decoded. */
  lemma {:induction false} CoilPiece(defs: Definitions, dates: DateRange, m: Mapping, coils: seq<bool>, o: nat)
    requires m.tagId in defs && m.dataType == BoolType && m.bitOffset < 16
    requires o < |Packed(coils)|
    ensures PieceEffect(Modbus, defs, dates, m, ToBytes([Packed(coils)[o]])) == CoilEffect(m, coils, o)
  {
    DecodedBit(m, Packed(coils)[o], dates);
    PackedBit(coils, o, BitIndex(m.order, m.bitOffset));
  }

  lemma {:induction false} CoilSlice(words: seq<Word>, o: nat)
    requires o < |words|
    ensures ToBytes(words)[2 * o..2 * (o + 1)] == ToBytes([words[o]])
  {
    SliceOfBytes(words, o, o + 1);
    OneWordCut(words, o);
  }

  lemma {:induction false} OneWordCut(words: seq<Word>, o: nat)
    requires o < |words|
    ensures words[o..o + 1] == [words[o]]
  {
  }

  /** A coil's slice of the packed words, decoded. */
  lemma {:induction false} CoilCut(defs: Definitions, dates: DateRange, m: Mapping, g: ReadGroup, coils: seq<bool>, o: nat)
    requires m.tagId in defs && m.dataType == BoolType && m.bitOffset < 16 && m.count == 1
    requires g.start + o == m.address && o + 1 <= g.count == |coils|
    ensures ChunkEffect(Modbus, defs, dates, m, g, ToBytes(Packed(coils))) == [CoilEffect(m, coils, o)]
  {
    if o < |Packed(coils)| {
      CoilSlice(Packed(coils), o);
      CoilPiece(defs, dates, m, coils, o);
      SliceIsCut(defs, dates, m, g, ToBytes(Packed(coils)), ToBytes([Packed(coils)[o]]), o);
    }
  }

  lemma {:induction false} SliceIsCut(defs: Definitions, dates: DateRange, m: Mapping, g: ReadGroup, data: seq<Byte>, piece: seq<Byte>, o: nat)
    requires m.count == 1 && g.start + o == m.address && o + 1 <= g.count
    requires 2 * (o + 1) <= |data| && data[2 * o..2 * (o + 1)] == piece
    ensures ChunkEffect(Modbus, defs, dates, m, g, data) == [PieceEffect(Modbus, defs, dates, m, piece)]
  {
  }

  lemma {:induction false} CoilChunkEffect(defs: Definitions, dates: DateRange, m: Mapping, g: ReadGroup, mem: Memory)
    requires m.tagId in defs && m.dataType == BoolType && m.bitOffset < 16 && m.count == 1
    requires !WordSpace(g.space) && g.start <= m.address && m.End() <= g.start + g.count
    ensures ChunkEffect(Modbus, defs, dates, m, g, Answer(g, mem)) ==
            [CoilEffect(m, CoilsAt(mem, g.space, g.start, g.count), m.address - g.start)]
  {
    CoilCut(defs, dates, m, g, CoilsAt(mem, g.space, g.start, g.count), m.address - g.start);
  }

  /** A one-coil tag of a Modbus driver and the request, number `k` of its table, that reads its coil. */
  ghost predicate OneCoil(defs: Definitions, spaces: seq<Space>, ms: seq<Mapping>, m: Mapping, k: nat, limit: nat, cells: Cells)
  {
    && Configured(ms, limit) && DistinctSpaces(spaces) && m in ms && m.space in spaces
    && !WordSpace(m.space) && Declared(m, defs, cells) && m.dataType == BoolType && m.bitOffset < 16 && m.count == 1
    && k < |SpacePlan(m.space, ms, 1)|
    && SpacePlan(m.space, ms, 1)[k].start <= m.address
    && m.End() <= SpacePlan(m.space, ms, 1)[k].start + SpacePlan(m.space, ms, 1)[k].count
  }

  /** The tag's cell shows the state of its own coil. */
  ghost predicate ShowsOwnCoil(defs: Definitions, dates: DateRange, spaces: seq<Space>, ms: seq<Mapping>, m: Mapping, cells: Cells, mem: Memory)
  {
    var after := AfterCycle(Modbus, defs, dates, spaces, ms, 1, mem, cells);
    m.tagId in after && after[m.tagId] == Cell(Bool(CoilAt(mem, m.space, m.address)), Good)
  }

  /**
   * A one-coil tag is published as its own coil for every device state exactly when the coil is the
   * first of its request and the selected bit is the first of the word. At any other offset another
   * coil, a padding bit or a configuration error takes its place.
   */
  lemma {:induction false} CoilReadIsExactAtOffsetZero(defs: Definitions, dates: DateRange, spaces: seq<Space>, ms: seq<Mapping>, m: Mapping, k: nat,
                                                       limit: nat, cells: Cells)
    requires OneCoil(defs, spaces, ms, m, k, limit, cells)
    ensures (forall mem: Memory :: ShowsOwnCoil(defs, dates, spaces, ms, m, cells, mem))
            <==> m.address == SpacePlan(m.space, ms, 1)[k].start && BitIndex(m.order, m.bitOffset) == 0
  {
    var g := SpacePlan(m.space, ms, 1)[k];
    if DecidingCoil(m, m.address - g.start) == 0 {
      forall mem: Memory ensures ShowsOwnCoil(defs, dates, spaces, ms, m, cells, mem) {
        FirstCoilIsShown(defs, dates, spaces, ms, m, k, limit, cells, mem);
      }
    } else {
      OtherCoilIsShown(defs, dates, spaces, ms, m, k, limit, cells);
    }
  }

  lemma {:induction false} FirstCoilIsShown(defs: Definitions, dates: DateRange, spaces: seq<Space>, ms: seq<Mapping>, m: Mapping, k: nat,
                                            limit: nat, cells: Cells, mem: Memory)
    requires OneCoil(defs, spaces, ms, m, k, limit, cells)
    requires DecidingCoil(m, m.address - SpacePlan(m.space, ms, 1)[k].start) == 0
    ensures ShowsOwnCoil(defs, dates, spaces, ms, m, cells, mem)
  {
    var g := SpacePlan(m.space, ms, 1)[k];
    CoilOutcome(defs, dates, spaces, ms, m, k, limit, cells, mem);
    FirstCoil(defs, m, g, mem, cells[m.tagId]);
  }

  lemma {:induction false} FirstCoil(defs: Definitions, m: Mapping, g: ReadGroup, mem: Memory, c: Cell)
    requires m.tagId in defs && defs[m.tagId].dataType == BoolType
    requires g.start <= m.address && m.End() <= g.start + g.count && m.count == 1
    requires DecidingCoil(m, m.address - g.start) == 0
    ensures CoilCell(defs, m, g, c, mem) ==
            Cell(Bool(CoilAt(mem, m.space, m.address)), Good)
  {
    CoilAtOffset(mem, m.space, g.start, g.count, 0);
  }

  lemma {:induction false} OtherCoilIsShown(defs: Definitions, dates: DateRange, spaces: seq<Space>, ms: seq<Mapping>, m: Mapping, k: nat,
                                            limit: nat, cells: Cells)
    requires OneCoil(defs, spaces, ms, m, k, limit, cells)
    requires DecidingCoil(m, m.address - SpacePlan(m.space, ms, 1)[k].start) != 0
    ensures !ShowsOwnCoil(defs, dates, spaces, ms, m, cells, Lone(m.space, m.address, 1))
  {
    var g, mem := SpacePlan(m.space, ms, 1)[k], Lone(m.space, m.address, 1);
    CoilOutcome(defs, dates, spaces, ms, m, k, limit, cells, mem);
    MissedCell(defs, m, g, mem, cells[m.tagId]);
  }

  lemma {:induction false} MissedCell(defs: Definitions, m: Mapping, g: ReadGroup, mem: Memory, c: Cell)
    requires m.tagId in defs && defs[m.tagId].dataType == BoolType
    requires g.start <= m.address && m.End() <= g.start + g.count && m.count == 1
    requires mem == Lone(m.space, m.address, 1) && DecidingCoil(m, m.address - g.start) != 0
    ensures CoilCell(defs, m, g, c, mem) !=
            Cell(Bool(CoilAt(mem, m.space, m.address)), Good)
  {
    LoneCoilIsMissed(m, g, mem);
    OtherCell(defs, c, CoilEffect(m, CoilsAt(mem, m.space, g.start, g.count), m.address - g.start), m.tagId);
  }

  lemma {:induction false} OtherCell(defs: Definitions, c: Cell, e: Effect, id: string)
    requires id in defs && defs[id].dataType == BoolType
    requires e == Publish(id, Bool(false)) || e == Mark(id, ConfigError)
    ensures OnCell(defs, c, e) != Cell(Bool(true), Good)
  {
  }

  lemma {:induction false} LoneCoilIsMissed(m: Mapping, g: ReadGroup, mem: Memory)
    requires g.start <= m.address && m.End() <= g.start + g.count && m.count == 1
    requires mem == Lone(m.space, m.address, 1) && DecidingCoil(m, m.address - g.start) != 0
    ensures CoilAt(mem, m.space, m.address)
    ensures var e := CoilEffect(m, CoilsAt(mem, m.space, g.start, g.count), m.address - g.start);
            e == Publish(m.tagId, Bool(false)) || e == Mark(m.tagId, ConfigError)
  {
    var d := DecidingCoil(m, m.address - g.start);
    if d < g.count {
      CoilAtOffset(mem, m.space, g.start, g.count, d);
    }
  }

  /** The cell of a coil's tag after its request was answered from `mem`. */
  function CoilCell(defs: Definitions, m: Mapping, g: ReadGroup, c: Cell, mem: Memory): Cell
    requires g.start <= m.address
  {
    OnCell(defs, c, EffectOfCoil(m, g, mem))
  }

  /** The cell of a coil's tag after a cycle answered from `mem`. */
  lemma {:induction false} CoilOutcome(defs: Definitions, dates: DateRange, spaces: seq<Space>, ms: seq<Mapping>, m: Mapping, k: nat,
                                       limit: nat, cells: Cells, mem: Memory)
    requires OneCoil(defs, spaces, ms, m, k, limit, cells)
    ensures var g := SpacePlan(m.space, ms, 1)[k];
            var after := AfterCycle(Modbus, defs, dates, spaces, ms, 1, mem, cells);
            && m.tagId in after
            && after[m.tagId] == CoilCell(defs, m, g, cells[m.tagId], mem)
  {
    var g := SpacePlan(m.space, ms, 1)[k];
    OwnCoilEffect(defs, dates, spaces, ms, m, k, g, limit, mem);
    SoleEffect(defs, cells, CycleEffects(Modbus, defs, dates, FullPlan(spaces, ms, 1), mem), m.tagId, EffectOfCoil(m, g, mem));
  }

  /** What the answer to request `g` does to a coil's tag. */
  function EffectOfCoil(m: Mapping, g: ReadGroup, mem: Memory): Effect
    requires g.start <= m.address
  {
    CoilEffect(m, CoilsAt(mem, m.space, g.start, g.count), m.address - g.start)
  }

  lemma {:induction false} OwnCoilEffect(defs: Definitions, dates: DateRange, spaces: seq<Space>, ms: seq<Mapping>, m: Mapping, k: nat, g: ReadGroup,
                                         limit: nat, mem: Memory)
    requires Configured(ms, limit) && DistinctSpaces(spaces) && m in ms && m.space in spaces && m.tagId in defs
    requires !WordSpace(m.space) && m.dataType == BoolType && m.bitOffset < 16 && m.count == 1
    requires k < |SpacePlan(m.space, ms, 1)| && g == SpacePlan(m.space, ms, 1)[k]
    requires g.start <= m.address && m.End() <= g.start + g.count
    ensures Own(CycleEffects(Modbus, defs, dates, FullPlan(spaces, ms, 1), mem), m.tagId) == [EffectOfCoil(m, g, mem)]
  {
    TagEffects(Modbus, defs, dates, spaces, ms, m, 1, limit, mem);
    CoilMemberEffects(defs, dates, ms, m, k, g, limit, mem);
  }

  /** A tag with one effect ends as that effect leaves it. */
  lemma {:induction false} SoleEffect(defs: Definitions, cells: Cells, es: seq<Effect>, id: string, e: Effect)
    requires id in cells && Own(es, id) == [e]
    ensures id in ApplyAll(defs, cells, es) && ApplyAll(defs, cells, es)[id] == OnCell(defs, cells[id], e)
  {
    OnlyOwnEffectsMatter(defs, cells, es, id);
    OneEffect(defs, cells[id], e);
  }

  lemma {:induction false} CoilMemberEffects(defs: Definitions, dates: DateRange, ms: seq<Mapping>, m: Mapping, k: nat, g: ReadGroup,
                                             limit: nat, mem: Memory)
    requires Configured(ms, limit) && m in ms && m.tagId in defs
    requires !WordSpace(m.space) && m.dataType == BoolType && m.bitOffset < 16 && m.count == 1
    requires k < |SpacePlan(m.space, ms, 1)| && g == SpacePlan(m.space, ms, 1)[k]
    requires g.start <= m.address && m.End() <= g.start + g.count
    ensures MemberEffects(Modbus, defs, dates, m, SpacePlan(m.space, ms, 1), mem) == [EffectOfCoil(m, g, mem)]
  {
    PlanServes(ms, m, 1, limit);
    CoilGroupEffects(defs, dates, m, SpacePlan(m.space, ms, 1), k, g, mem);
  }

  lemma {:induction false} CoilGroupEffects(defs: Definitions, dates: DateRange, m: Mapping, gs: seq<ReadGroup>, k: nat, g: ReadGroup, mem: Memory)
    requires m.tagId in defs && !WordSpace(m.space) && m.dataType == BoolType && m.bitOffset < 16 && m.count == 1
    requires Serving(m, gs) && k < |gs| && g == gs[k] && g.start <= m.address && m.End() <= g.start + g.count
    ensures MemberEffects(Modbus, defs, dates, m, gs, mem) == [EffectOfCoil(m, g, mem)]
  {
    SoleGroup(Modbus, defs, dates, m, gs, mem, k);
    OwnSpace(m, gs, g);
    CoilChunkEffect(defs, dates, m, g, mem);
  }

  lemma {:induction false} OwnSpace(m: Mapping, gs: seq<ReadGroup>, g: ReadGroup)
    requires Serving(m, gs) && g in gs
    ensures g.space == m.space
  {
  }

  lemma {:induction false} OneEffect(defs: Definitions, c: Cell, e: Effect)
    ensures OnCellAll(defs, c, [e]) == OnCell(defs, c, e)
  {
    assert [e][1..] == [];
  }
}
