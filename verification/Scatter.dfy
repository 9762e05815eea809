/**
 * Cutting bulk-read data back into per-tag slices, and what that means for one tag: grouped reads
 * against one direct read of the tag's own words.
 */
module Scatter {
  import opened Words
  import opened WordOrders
  import opened TagModel
  import opened Codec
  import opened Mappings
  import opened Planner
  import opened Registries
  import opened CoilPacking

  // ----- device memory -----

  /** Word-addressed device memory. */
  type Memory = (Space, int) -> Word

  /** The word at address `a` of space `s` is `w`, all others are 0. */
  function Lone(s: Space, a: int, w: Word): Memory
  {
    (t: Space, b: int) => if t == s && b == a then w else 0
  }

  /** `n` words from address `a`. */
  function WordsAt(mem: Memory, s: Space, a: int, n: nat): (ws: seq<Word>)
    ensures |ws| == n
  {
    if n == 0 then [] else WordsAt(mem, s, a, n - 1) + [mem(s, a + n - 1)]
  }

  lemma {:induction false} WordAtOffset(mem: Memory, s: Space, a: int, n: nat, i: nat)
    requires i < n
    ensures WordsAt(mem, s, a, n)[i] == mem(s, a + i)
  {
    if i < n - 1 {
      WordAtOffset(mem, s, a, n - 1, i);
    }
  }

  lemma {:induction false} WordsAtConcat(mem: Memory, s: Space, a: int, n: nat, k: nat)
    ensures WordsAt(mem, s, a, n) + WordsAt(mem, s, a + n, k) == WordsAt(mem, s, a, n + k)
  {
    if k > 0 {
      WordsAtConcat(mem, s, a, n, k - 1);
    }
  }

  lemma {:induction false} WordsAtSlice(mem: Memory, s: Space, a: int, n: nat, i: nat, j: nat)
    requires i <= j <= n
    ensures WordsAt(mem, s, a, n)[i..j] == WordsAt(mem, s, a + i, j - i)
  {
    WordsAtConcat(mem, s, a, i, j - i);
    WordsAtConcat(mem, s, a, j, n - j);
  }

  // ----- one mapping and one chunk -----

  /** Which driver decodes. */
  datatype Style = Fins | Modbus

  function DecodeAs(style: Style, m: Mapping, bytes: seq<Byte>, dates: DateRange): Decoded
  {
    var ordered := Reordered(m.order, bytes);
    match style
    case Fins => DecodeFins(m.dataType, ordered, m.bitOffset, dates)
    case Modbus => DecodeModbus(m.dataType, ordered, m.bitOffset, dates)
  }

  function FailureQuality(style: Style): TagQuality
  {
    match style
    case Fins => Error(DecodeFailed)
    case Modbus => ConfigError
  }

  /** What a driver does with the bytes it has for a mapping, unless decoding them panics. */
  function PieceEffect(style: Style, defs: Definitions, dates: DateRange, m: Mapping, bytes: seq<Byte>): (e: Effect)
    ensures e.tagId == m.tagId
  {
    if m.tagId !in defs then Mark(m.tagId, FailureQuality(style))
    else
      match DecodeAs(style, m, bytes, dates)
      case Ok(v) => Publish(m.tagId, v)
      case Err(_) => Mark(m.tagId, FailureQuality(style))
  }

  predicate Touches(m: Mapping, g: ReadGroup)
  {
    m.address < g.start + g.count && g.start < m.End()
  }

  /** Where the words common to mapping and chunk start, and how many there are. */
  function OverlapStart(m: Mapping, g: ReadGroup): nat
  {
    Max(m.address, g.start)
  }

  function OverlapEnd(m: Mapping, g: ReadGroup): nat
  {
    Min(m.End(), g.start + g.count)
  }

  function ShortQuality(style: Style): TagQuality
  {
    match style
    case Fins => Error(ShortPayload)
    case Modbus => ConfigError
  }

  /** The mapping's bytes within the chunk's bytes. */
  function SliceOf(m: Mapping, g: ReadGroup, data: seq<Byte>): seq<Byte>
    requires Touches(m, g) && 2 * (OverlapEnd(m, g) - g.start) <= |data|
  {
    data[2 * (OverlapStart(m, g) - g.start)..2 * (OverlapEnd(m, g) - g.start)]
  }

  /** What a chunk's data does to one of its mappings: nothing, a short-payload mark, or the piece's effect. */
  function ChunkEffect(style: Style, defs: Definitions, dates: DateRange, m: Mapping, g: ReadGroup, data: seq<Byte>): seq<Effect>
  {
    if !Touches(m, g) then []
    else if 2 * (OverlapEnd(m, g) - g.start) > |data| then [Mark(m.tagId, ShortQuality(style))]
    else [PieceEffect(style, defs, dates, m, SliceOf(m, g, data))]
  }

  /** What a piece of the data leaves of its tag. */
  lemma {:induction false} PieceLeaves(style: Style, defs: Definitions, dates: DateRange, m: Mapping, bytes: seq<Byte>, before: Cell)
    ensures OnCell(defs, before, PieceEffect(style, defs, dates, m, bytes)) ==
            match if m.tagId in defs then DecodeAs(style, m, bytes, dates) else Err(NotEnoughData)
            case Ok(v) => if v.DataType() == defs[m.tagId].dataType then Cell(v, Good) else before
            case Err(_) => Cell(before.value, if style.Fins? then Error(DecodeFailed) else ConfigError)
  {
  }

  lemma {:induction false} ChunkIsOneEffect(style: Style, defs: Definitions, dates: DateRange, m: Mapping, g: ReadGroup, data: seq<Byte>)
    ensures var es := ChunkEffect(style, defs, dates, m, g, data);
            var from := if m.address < g.start then 0 else m.address - g.start;
            var until := if m.address + m.count < g.start + g.count then m.address + m.count - g.start else g.count;
            if m.address >= g.start + g.count || g.start >= m.address + m.count then es == []
            else if |data| < 2 * until then es == [Mark(m.tagId, if style.Fins? then Error(ShortPayload) else ConfigError)]
            else es == [PieceEffect(style, defs, dates, m, data[2 * from..2 * until])]
  {
    OverlapIs(m, g);
  }

  lemma {:induction false} OverlapIs(m: Mapping, g: ReadGroup)
    ensures Touches(m, g) <==> m.address < g.start + g.count && g.start < m.address + m.count
    ensures OverlapStart(m, g) - g.start == if m.address < g.start then 0 else m.address - g.start
    ensures OverlapEnd(m, g) - g.start == if m.address + m.count < g.start + g.count then m.address + m.count - g.start else g.count
  {
  }

  /** What the data of group `g` leave of the tag of mapping `m`, by the words the two share. */
  lemma {:induction false} ChunkLeaves(style: Style, defs: Definitions, dates: DateRange, m: Mapping, g: ReadGroup, data: seq<Byte>,
                                       cells: Cells)
    requires m.tagId in cells
    ensures var before, after := cells[m.tagId], ApplyAll(defs, cells, ChunkEffect(style, defs, dates, m, g, data));
            var from := if m.address < g.start then 0 else m.address - g.start;
            var until := if m.address + m.count < g.start + g.count then m.address + m.count - g.start else g.count;
            && m.tagId in after
            && after[m.tagId] ==
               if m.address >= g.start + g.count || g.start >= m.address + m.count then before
               else if |data| < 2 * until then Cell(before.value, if style.Fins? then Error(ShortPayload) else ConfigError)
               else OnCell(defs, before, PieceEffect(style, defs, dates, m, data[2 * from..2 * until]))
  {
    var es := ChunkEffect(style, defs, dates, m, g, data);
    ChunkIsOneEffect(style, defs, dates, m, g, data);
    if es != [] {
      OneApplied(defs, cells, es[0]);
    }
  }

  // ----- panics -----

  /** Decoding the bytes ends in a panic: a FINS date behind the library's last one. */
  predicate PiecePanics(style: Style, defs: Definitions, dates: DateRange, m: Mapping, bytes: seq<Byte>)
  {
    style.Fins? && m.tagId in defs && DecodeAs(style, m, bytes, dates) == Err(DatePanics)
  }

  predicate MemberPanics(style: Style, defs: Definitions, dates: DateRange, m: Mapping, g: ReadGroup, data: seq<Byte>)
  {
    && Touches(m, g) && 2 * (OverlapEnd(m, g) - g.start) <= |data|
    && PiecePanics(style, defs, dates, m, SliceOf(m, g, data))
  }

  predicate ChunkPanics(style: Style, defs: Definitions, dates: DateRange, members: seq<Mapping>, g: ReadGroup, data: seq<Byte>)
  {
    members != [] && (MemberPanics(style, defs, dates, members[0], g, data) || ChunkPanics(style, defs, dates, members[1..], g, data))
  }

  /** A cycle whose requests are answered from memory ends in a panic. */
  predicate CyclePanics(style: Style, defs: Definitions, dates: DateRange, gs: seq<ReadGroup>, mem: Memory)
  {
    gs != [] && (ChunkPanics(style, defs, dates, gs[0].members, gs[0], Answer(gs[0], mem)) || CyclePanics(style, defs, dates, gs[1..], mem))
  }

  lemma {:induction false} ModbusNeverPanics(defs: Definitions, dates: DateRange, gs: seq<ReadGroup>, mem: Memory)
    ensures !CyclePanics(Modbus, defs, dates, gs, mem)
  {
    if gs != [] {
      ModbusChunksNeverPanic(defs, dates, gs[0].members, gs[0], Answer(gs[0], mem));
      ModbusNeverPanics(defs, dates, gs[1..], mem);
    }
  }

  lemma {:induction false} ModbusChunksNeverPanic(defs: Definitions, dates: DateRange, members: seq<Mapping>, g: ReadGroup, data: seq<Byte>)
    ensures !ChunkPanics(Modbus, defs, dates, members, g, data)
  {
    if members != [] {
      ModbusChunksNeverPanic(defs, dates, members[1..], g, data);
    }
  }

  /** A chunk's data end in a panic exactly if one of its mappings' pieces does. */
  lemma {:induction false} ChunkPanicsExactly(style: Style, defs: Definitions, dates: DateRange, members: seq<Mapping>, g: ReadGroup, data: seq<Byte>)
    ensures ChunkPanics(style, defs, dates, members, g, data) <==> exists m :: m in members && MemberPanics(style, defs, dates, m, g, data)
  {
    if members != [] {
      ChunkPanicsExactly(style, defs, dates, members[1..], g, data);
      assert members[0] in members;
    }
  }

  /** Mapping `m` of group `k` panics on what memory holds. */
  predicate PanicAt(style: Style, defs: Definitions, dates: DateRange, gs: seq<ReadGroup>, mem: Memory, k: nat, m: Mapping)
  {
    k < |gs| && m in gs[k].members && MemberPanics(style, defs, dates, m, gs[k], Answer(gs[k], mem))
  }

  lemma {:induction false} CyclePanicsExactly(style: Style, defs: Definitions, dates: DateRange, gs: seq<ReadGroup>, mem: Memory)
    ensures CyclePanics(style, defs, dates, gs, mem) <==> exists k: nat, m: Mapping :: PanicAt(style, defs, dates, gs, mem, k, m)
  {
    if gs != [] {
      CyclePanicsExactly(style, defs, dates, gs[1..], mem);
      ChunkPanicsExactly(style, defs, dates, gs[0].members, gs[0], Answer(gs[0], mem));
      if m: Mapping :| m in gs[0].members && MemberPanics(style, defs, dates, m, gs[0], Answer(gs[0], mem)) {
        assert PanicAt(style, defs, dates, gs, mem, 0, m);
      }
      if k: nat, m: Mapping :| PanicAt(style, defs, dates, gs[1..], mem, k, m) {
        assert PanicAt(style, defs, dates, gs, mem, k + 1, m);
      }
      if k: nat, m: Mapping :| PanicAt(style, defs, dates, gs, mem, k, m) && k > 0 {
        assert PanicAt(style, defs, dates, gs[1..], mem, k - 1, m);
      }
    }
  }

  // ----- what a device answers -----

  /** Spaces of 16-bit words, as opposed to Modbus bit tables. */
  predicate WordSpace(s: Space)
  {
    s.Area? || s.op == HoldingRegisters || s.op == InputRegisters
  }

  /** The state of coil `a`. */
  predicate CoilAt(mem: Memory, s: Space, a: int)
  {
    mem(s, a) != 0
  }

  function CoilsAt(mem: Memory, s: Space, a: int, n: nat): (bits: seq<bool>)
    ensures |bits| == n
  {
    if n == 0 then [] else CoilsAt(mem, s, a, n - 1) + [CoilAt(mem, s, a + n - 1)]
  }

  lemma {:induction false} CoilAtOffset(mem: Memory, s: Space, a: int, n: nat, i: nat)
    requires i < n
    ensures CoilsAt(mem, s, a, n)[i] == CoilAt(mem, s, a + i)
  {
    if i < n - 1 {
      CoilAtOffset(mem, s, a, n - 1, i);
    }
  }

  /** The bytes a driver has after a chunk was answered from memory: words, or packed coils. */
  function Answer(g: ReadGroup, mem: Memory): seq<Byte>
  {
    if WordSpace(g.space) then ToBytes(WordsAt(mem, g.space, g.start, g.count))
    else ToBytes(Packed(CoilsAt(mem, g.space, g.start, g.count)))
  }

  lemma {:induction false} SliceHoldsTheWords(m: Mapping, g: ReadGroup, mem: Memory)
    requires Touches(m, g) && WordSpace(g.space)
    ensures 2 * (OverlapEnd(m, g) - g.start) <= |Answer(g, mem)|
    ensures SliceOf(m, g, Answer(g, mem)) == ToBytes(PieceWords(m, g, mem))
  {
    var i, j := OverlapStart(m, g) - g.start, OverlapEnd(m, g) - g.start;
    SliceOfBytes(WordsAt(mem, g.space, g.start, g.count), i, j);
    WordsAtSlice(mem, g.space, g.start, g.count, i, j);
  }

  // ----- all mappings of a chunk, all chunks of a plan -----

  /** The effects of a chunk's data, mapping by mapping, if none panics. */
  function ChunkEffects(style: Style, defs: Definitions, dates: DateRange, members: seq<Mapping>, g: ReadGroup, data: seq<Byte>): seq<Effect>
  {
    if members == [] then []
    else ChunkEffect(style, defs, dates, members[0], g, data) + ChunkEffects(style, defs, dates, members[1..], g, data)
  }

  /** The effects of a cycle in which every chunk is answered from memory and nothing panics. */
  function CycleEffects(style: Style, defs: Definitions, dates: DateRange, gs: seq<ReadGroup>, mem: Memory): seq<Effect>
  {
    if gs == [] then [] else AnsweredFrom(style, defs, dates, gs[0], mem) + CycleEffects(style, defs, dates, gs[1..], mem)
  }

  /** The effects of one chunk answered from memory. */
  function AnsweredFrom(style: Style, defs: Definitions, dates: DateRange, g: ReadGroup, mem: Memory): seq<Effect>
  {
    ChunkEffects(style, defs, dates, g.members, g, Answer(g, mem))
  }

  lemma {:induction false} CycleEffectsConcat(style: Style, defs: Definitions, dates: DateRange, a: seq<ReadGroup>, b: seq<ReadGroup>, mem: Memory)
    ensures CycleEffects(style, defs, dates, a + b, mem) ==
            CycleEffects(style, defs, dates, a, mem) + CycleEffects(style, defs, dates, b, mem)
  {
    if a == [] {
      assert a + b == b;
    } else {
      CycleEffectsConcat(style, defs, dates, a[1..], b, mem);
      HeadOfConcat(a, b);
      Associate(AnsweredFrom(style, defs, dates, a[0], mem), CycleEffects(style, defs, dates, a[1..], mem), CycleEffects(style, defs, dates, b, mem));
    }
  }

  lemma {:induction false} HeadOfConcat(a: seq<ReadGroup>, b: seq<ReadGroup>)
    requires a != []
    ensures (a + b)[0] == a[0] && (a + b)[1..] == a[1..] + b
  {
  }

  // ----- one tag -----

  /** The effects the chunks have on mapping `m` alone. */
  function MemberEffects(style: Style, defs: Definitions, dates: DateRange, m: Mapping, gs: seq<ReadGroup>, mem: Memory): seq<Effect>
  {
    if gs == [] then [] else MemberEffect(style, defs, dates, m, gs[0], mem) + MemberEffects(style, defs, dates, m, gs[1..], mem)
  }

  function MemberEffect(style: Style, defs: Definitions, dates: DateRange, m: Mapping, g: ReadGroup, mem: Memory): seq<Effect>
  {
    if m in g.members then ChunkEffect(style, defs, dates, m, g, Answer(g, mem)) else []
  }

  /** The words of `m` that group `g` reads. */
  function PieceWords(m: Mapping, g: ReadGroup, mem: Memory): seq<Word>
    requires Touches(m, g)
  {
    WordsAt(mem, g.space, OverlapStart(m, g), OverlapEnd(m, g) - OverlapStart(m, g))
  }

  /** No other member of the list has the tag id of `m`. */
  predicate SoleOwner(m: Mapping, members: seq<Mapping>)
  {
    forall i :: 0 <= i < |members| && members[i].tagId == m.tagId ==> members[i] == m
  }

  predicate NoOwner(id: string, members: seq<Mapping>)
  {
    forall i :: 0 <= i < |members| ==> members[i].tagId != id
  }

  lemma {:induction false} ChunkEffectIsOwn(style: Style, defs: Definitions, dates: DateRange, m: Mapping, g: ReadGroup, data: seq<Byte>, id: string)
    ensures var es := ChunkEffect(style, defs, dates, m, g, data); Own(es, id) == if m.tagId == id then es else []
  {
  }

  lemma {:induction false} OthersDoNothing(style: Style, defs: Definitions, dates: DateRange, id: string, members: seq<Mapping>,
                                           g: ReadGroup, data: seq<Byte>)
    requires NoOwner(id, members)
    ensures Own(ChunkEffects(style, defs, dates, members, g, data), id) == []
  {
    if members != [] {
      OthersDoNothing(style, defs, dates, id, members[1..], g, data);
      ChunkEffectIsOwn(style, defs, dates, members[0], g, data, id);
      OwnConcat(ChunkEffect(style, defs, dates, members[0], g, data), ChunkEffects(style, defs, dates, members[1..], g, data), id);
    }
  }

  lemma {:induction false} OwnChunkEffect(style: Style, defs: Definitions, dates: DateRange, m: Mapping, members: seq<Mapping>,
                                          g: ReadGroup, data: seq<Byte>)
    requires DistinctIds(members) && SoleOwner(m, members)
    ensures Own(ChunkEffects(style, defs, dates, members, g, data), m.tagId) ==
            if m in members then ChunkEffect(style, defs, dates, m, g, data) else []
  {
    if members != [] {
      var first, rest := ChunkEffect(style, defs, dates, members[0], g, data), ChunkEffects(style, defs, dates, members[1..], g, data);
      ChunkEffectIsOwn(style, defs, dates, members[0], g, data, m.tagId);
      OwnConcat(first, rest, m.tagId);
      if members[0] == m {
        OthersDoNothing(style, defs, dates, m.tagId, members[1..], g, data);
        assert first + [] == first;
      } else {
        assert members[0].tagId != m.tagId;
        OwnChunkEffect(style, defs, dates, m, members[1..], g, data);
        assert m in members <==> m in members[1..];
      }
    }
  }

  /** Mapping `m` of the group decodes to `v` from its slice of the reply's data. */
  ghost predicate DecodedFrom(style: Style, dates: DateRange, m: Mapping, g: ReadGroup, data: seq<Byte>, v: TagValue)
  {
    && Touches(m, g) && 2 * (OverlapEnd(m, g) - g.start) <= |data|
    && DecodeAs(style, m, SliceOf(m, g, data), dates) == Ok(v)
  }

  lemma {:induction false} ChunkPublisher(style: Style, defs: Definitions, dates: DateRange, members: seq<Mapping>, g: ReadGroup,
                                          data: seq<Byte>, id: string, v: TagValue)
    returns (m: Mapping)
    requires Publishes(ChunkEffects(style, defs, dates, members, g, data), id, v)
    ensures m in members && m.tagId == id && DecodedFrom(style, dates, m, g, data, v)
  {
    if Publish(id, v) in ChunkEffect(style, defs, dates, members[0], g, data) {
      m := members[0];
    } else {
      m := ChunkPublisher(style, defs, dates, members[1..], g, data, id, v);
    }
  }

  /** The group lists a mapping of the tag. */
  predicate ListsTag(g: ReadGroup, id: string)
  {
    id in IdsOf(g.members)
  }

  lemma {:induction false} IdsOfMembers(ms: seq<Mapping>, id: string)
    ensures id in IdsOf(ms) <==> exists i :: 0 <= i < |ms| && ms[i].tagId == id
  {
    if ms != [] {
      IdsOfMembers(ms[1..], id);
      if i :| 0 <= i < |ms| && ms[i].tagId == id && i > 0 {
        assert ms[1..][i - 1].tagId == id;
      }
      if i :| 0 <= i < |ms[1..]| && ms[1..][i].tagId == id {
        assert ms[i + 1].tagId == id;
      }
    }
  }

  /** In a plan over mappings with distinct ids, only its own chunks act on a tag. */
  lemma {:induction false} OwnCycleEffects(style: Style, defs: Definitions, dates: DateRange, m: Mapping, gs: seq<ReadGroup>, mem: Memory)
    requires forall i :: 0 <= i < |gs| ==> DistinctIds(gs[i].members) && SoleOwner(m, gs[i].members)
    ensures Own(CycleEffects(style, defs, dates, gs, mem), m.tagId) == MemberEffects(style, defs, dates, m, gs, mem)
  {
    if gs != [] {
      var first, rest := gs[0], gs[1..];
      OwnCycleEffects(style, defs, dates, m, rest, mem);
      OwnOfGroup(style, defs, dates, m, first, mem, CycleEffects(style, defs, dates, rest, mem));
    }
  }

  lemma {:induction false} OwnOfGroup(style: Style, defs: Definitions, dates: DateRange, m: Mapping, g: ReadGroup, mem: Memory, es: seq<Effect>)
    requires DistinctIds(g.members) && SoleOwner(m, g.members)
    ensures Own(AnsweredFrom(style, defs, dates, g, mem) + es, m.tagId) == MemberEffect(style, defs, dates, m, g, mem) + Own(es, m.tagId)
  {
    OwnAnsweredEffects(style, defs, dates, m, g, mem);
    OwnConcat(AnsweredFrom(style, defs, dates, g, mem), es, m.tagId);
  }

  lemma {:induction false} OwnAnsweredEffects(style: Style, defs: Definitions, dates: DateRange, m: Mapping, g: ReadGroup, mem: Memory)
    requires DistinctIds(g.members) && SoleOwner(m, g.members)
    ensures Own(AnsweredFrom(style, defs, dates, g, mem), m.tagId) == MemberEffect(style, defs, dates, m, g, mem)
  {
    OwnChunkEffect(style, defs, dates, m, g.members, g, Answer(g, mem));
  }

  /** A tag without mapping is not acted on. */
  lemma {:induction false} StrangerIsUntouched(style: Style, defs: Definitions, dates: DateRange, id: string, gs: seq<ReadGroup>, mem: Memory)
    requires forall i :: 0 <= i < |gs| ==> NoOwner(id, gs[i].members)
    ensures Own(CycleEffects(style, defs, dates, gs, mem), id) == []
  {
    if gs != [] {
      OthersDoNothing(style, defs, dates, id, gs[0].members, gs[0], Answer(gs[0], mem));
      OwnConcat(AnsweredFrom(style, defs, dates, gs[0], mem), CycleEffects(style, defs, dates, gs[1..], mem), id);
      StrangerIsUntouched(style, defs, dates, id, gs[1..], mem);
    }
  }

  lemma {:induction false} MemberEffectsConcat(style: Style, defs: Definitions, dates: DateRange, m: Mapping, a: seq<ReadGroup>,
                                               b: seq<ReadGroup>, mem: Memory)
    ensures MemberEffects(style, defs, dates, m, a + b, mem) ==
            MemberEffects(style, defs, dates, m, a, mem) + MemberEffects(style, defs, dates, m, b, mem)
  {
    if a == [] {
      assert a + b == b;
    } else {
      MemberEffectsConcat(style, defs, dates, m, a[1..], b, mem);
      HeadOfConcat(a, b);
      Associate(MemberEffect(style, defs, dates, m, a[0], mem), MemberEffects(style, defs, dates, m, a[1..], mem),
                MemberEffects(style, defs, dates, m, b, mem));
    }
  }

  predicate Away(m: Mapping, gs: seq<ReadGroup>)
  {
    forall i :: 0 <= i < |gs| ==> !Touches(m, gs[i])
  }

  lemma {:induction false} NotAMember(style: Style, defs: Definitions, dates: DateRange, m: Mapping, gs: seq<ReadGroup>, mem: Memory)
    requires Away(m, gs) || forall i :: 0 <= i < |gs| ==> m !in gs[i].members
    ensures MemberEffects(style, defs, dates, m, gs, mem) == []
  {
    if gs != [] {
      NotAMember(style, defs, dates, m, gs[1..], mem);
    }
  }

  // ----- the groups of a mapping's own space -----

  /** The groups are ascending, and every word of `m` is read by a group that lists `m`. */
  ghost predicate Serving(m: Mapping, gs: seq<ReadGroup>)
  {
    && (forall i :: 0 <= i < |gs| ==> gs[i].count >= 1 && gs[i].space == m.space)
    && (forall i, j :: 0 <= i < j < |gs| ==> gs[i].start + gs[i].count <= gs[j].start)
    && (forall a :: m.Covers(a) ==> ReadBy(gs, a))
    && (forall i :: 0 <= i < |gs| && Touches(m, gs[i]) ==> m in gs[i].members)
  }

  /** One group reads all words of the mapping. */
  ghost predicate OneChunk(m: Mapping, gs: seq<ReadGroup>)
  {
    exists k :: 0 <= k < |gs| && gs[k].start <= m.address && m.End() <= gs[k].start + gs[k].count
  }

  /** The effect of reading the mapping's own words, as if alone. */
  function DirectEffect(style: Style, defs: Definitions, dates: DateRange, m: Mapping, mem: Memory): Effect
  {
    PieceEffect(style, defs, dates, m, ToBytes(WordsAt(mem, m.space, m.address, m.count)))
  }

  lemma {:induction false} OneChunkIsDirect(style: Style, defs: Definitions, dates: DateRange, m: Mapping, gs: seq<ReadGroup>, mem: Memory)
    requires WordSpace(m.space) && m.count >= 1 && Serving(m, gs) && OneChunk(m, gs)
    ensures MemberEffects(style, defs, dates, m, gs, mem) == [DirectEffect(style, defs, dates, m, mem)]
  {
    var k :| 0 <= k < |gs| && gs[k].start <= m.address && m.End() <= gs[k].start + gs[k].count;
    SoleGroup(style, defs, dates, m, gs, mem, k);
    SliceHoldsTheWords(m, gs[k], mem);
  }

  /** A mapping that lies in one group is acted on by that group alone. */
  lemma {:induction false} SoleGroup(style: Style, defs: Definitions, dates: DateRange, m: Mapping, gs: seq<ReadGroup>, mem: Memory, k: nat)
    requires m.count >= 1 && Serving(m, gs) && k < |gs|
    requires gs[k].start <= m.address && m.End() <= gs[k].start + gs[k].count
    ensures Touches(m, gs[k])
    ensures MemberEffects(style, defs, dates, m, gs, mem) == ChunkEffect(style, defs, dates, m, gs[k], Answer(gs[k], mem))
  {
    OthersAreAway(m, gs, k);
    NotAMember(style, defs, dates, m, gs[..k], mem);
    NotAMember(style, defs, dates, m, gs[k + 1..], mem);
    SplitAt(style, defs, dates, m, gs, mem, k);
    SingleGroup(style, defs, dates, m, gs[k], mem);
  }

  lemma {:induction false} OthersAreAway(m: Mapping, gs: seq<ReadGroup>, k: nat)
    requires m.count >= 1 && Serving(m, gs) && k < |gs|
    requires gs[k].start <= m.address && m.End() <= gs[k].start + gs[k].count
    ensures Away(m, gs[..k]) && Away(m, gs[k + 1..]) && Touches(m, gs[k])
  {
    var before, after := gs[..k], gs[k + 1..];
    forall i | 0 <= i < |before| ensures !Touches(m, before[i]) {
      assert gs[i].start + gs[i].count <= gs[k].start;
    }
    forall i | 0 <= i < |after| ensures !Touches(m, after[i]) {
      assert gs[k].start + gs[k].count <= gs[k + 1 + i].start;
    }
  }

  lemma {:induction false} SplitAt(style: Style, defs: Definitions, dates: DateRange, m: Mapping, gs: seq<ReadGroup>, mem: Memory, k: nat)
    requires k < |gs|
    ensures MemberEffects(style, defs, dates, m, gs, mem) ==
            MemberEffects(style, defs, dates, m, gs[..k], mem)
            + (MemberEffects(style, defs, dates, m, [gs[k]], mem) + MemberEffects(style, defs, dates, m, gs[k + 1..], mem))
  {
    var before, after := gs[..k], gs[k + 1..];
    assert gs == before + ([gs[k]] + after);
    MemberEffectsConcat(style, defs, dates, m, before, [gs[k]] + after, mem);
    MemberEffectsConcat(style, defs, dates, m, [gs[k]], after, mem);
  }

  lemma {:induction false} SingleGroup(style: Style, defs: Definitions, dates: DateRange, m: Mapping, g: ReadGroup, mem: Memory)
    ensures MemberEffects(style, defs, dates, m, [g], mem) == MemberEffect(style, defs, dates, m, g, mem)
  {
    assert [g][1..] == [];
  }

  // ----- straddling mappings -----

  /** The words of `m` the groups read, piece by piece. */
  function MemberPieces(m: Mapping, gs: seq<ReadGroup>, mem: Memory): seq<seq<Word>>
  {
    if gs == [] then []
    else
      MemberPieces(m, gs[..|gs| - 1], mem) + MemberPiece(m, gs[|gs| - 1], mem)
  }

  function MemberPiece(m: Mapping, g: ReadGroup, mem: Memory): seq<seq<Word>>
  {
    if m in g.members && Touches(m, g) then [PieceWords(m, g, mem)] else []
  }

  function Flatten(ps: seq<seq<Word>>): seq<Word>
  {
    if ps == [] then [] else Flatten(ps[..|ps| - 1]) + ps[|ps| - 1]
  }

  /** Number of words of `m` below address `b`. */
  function WordsBelow(m: Mapping, b: int): nat
  {
    if b <= m.address then 0 else if b >= m.End() then m.count else b - m.address
  }

  /** The pieces, none empty, are exactly the words of `m` below `b`. */
  ghost predicate TiledBelow(m: Mapping, ps: seq<seq<Word>>, mem: Memory, b: int)
  {
    && Flatten(ps) == WordsAt(mem, m.space, m.address, WordsBelow(m, b))
    && forall i :: 0 <= i < |ps| ==> ps[i] != []
  }

  /** Straddling or not, a mapping's pieces in chunk order are exactly its words. */
  lemma {:induction false} PiecesTileTheMapping(m: Mapping, gs: seq<ReadGroup>, mem: Memory)
    requires m.count >= 1 && Serving(m, gs)
    ensures TiledBelow(m, MemberPieces(m, gs, mem), mem, m.End())
  {
    PiecesUpTo(m, gs, mem, |gs|);
    assert gs[..|gs|] == gs;
    LastWordIsRead(m, gs);
  }

  lemma {:induction false} LastWordIsRead(m: Mapping, gs: seq<ReadGroup>)
    requires m.count >= 1 && Serving(m, gs)
    ensures m.End() <= Behind(gs, |gs|)
  {
    assert m.Covers(m.End() - 1);
    var k :| 0 <= k < |gs| && gs[k].Reads(m.End() - 1);
    var last := gs[|gs| - 1];
    assert k < |gs| - 1 ==> gs[k].start + gs[k].count <= last.start;
  }

  /** Behind the first `k` groups. */
  function Behind(gs: seq<ReadGroup>, k: nat): int
    requires k <= |gs|
  {
    if k == 0 then 0 else gs[k - 1].start + gs[k - 1].count
  }

  /** The pieces of the first `k` groups are the words below where they end. */
  ghost predicate TiledUpTo(m: Mapping, gs: seq<ReadGroup>, mem: Memory, k: nat)
    requires k <= |gs|
  {
    TiledBelow(m, MemberPieces(m, gs[..k], mem), mem, Behind(gs, k))
  }

  lemma {:induction false} PiecesUpTo(m: Mapping, gs: seq<ReadGroup>, mem: Memory, k: nat)
    requires m.count >= 1 && Serving(m, gs) && k <= |gs|
    ensures TiledUpTo(m, gs, mem, k)
  {
    if k == 0 {
      NoPieces(m, gs, mem);
    } else {
      PiecesUpTo(m, gs, mem, k - 1);
      OneMoreGroup(m, gs, mem, k - 1, gs[k - 1], MemberPieces(m, gs[..k - 1], mem));
    }
  }

  lemma {:induction false} NoPieces(m: Mapping, gs: seq<ReadGroup>, mem: Memory)
    ensures TiledUpTo(m, gs, mem, 0)
  {
    assert gs[..0] == [];
  }

  lemma {:induction false} OneMoreGroup(m: Mapping, gs: seq<ReadGroup>, mem: Memory, k: nat, g: ReadGroup, ps: seq<seq<Word>>)
    requires m.count >= 1 && Serving(m, gs) && k < |gs| && g == gs[k]
    requires ps == MemberPieces(m, gs[..k], mem) && TiledBelow(m, ps, mem, Behind(gs, k))
    ensures TiledUpTo(m, gs, mem, k + 1)
  {
    NoGapInside(m, gs, k);
    SameBound(m, ps, mem, Behind(gs, k), g.start);
    NextPiece(m, g, mem, ps);
    PiecesStep(m, gs, mem, k);
  }

  lemma {:induction false} SameBound(m: Mapping, ps: seq<seq<Word>>, mem: Memory, a: int, b: int)
    requires TiledBelow(m, ps, mem, a) && WordsBelow(m, a) == WordsBelow(m, b)
    ensures TiledBelow(m, ps, mem, b)
  {
  }

  lemma {:induction false} PiecesStep(m: Mapping, gs: seq<ReadGroup>, mem: Memory, k: nat)
    requires k < |gs|
    ensures MemberPieces(m, gs[..k + 1], mem) == MemberPieces(m, gs[..k], mem) + MemberPiece(m, gs[k], mem)
  {
    assert gs[..k + 1][..k] == gs[..k];
  }

  lemma {:induction false} NextPiece(m: Mapping, g: ReadGroup, mem: Memory, ps: seq<seq<Word>>)
    requires m.count >= 1 && g.count >= 1 && g.space == m.space
    requires TiledBelow(m, ps, mem, g.start) && (Touches(m, g) ==> m in g.members)
    ensures TiledBelow(m, ps + MemberPiece(m, g, mem), mem, g.start + g.count)
  {
    var n := WordsBelow(m, g.start);
    if Touches(m, g) {
      var p := PieceWords(m, g, mem);
      assert OverlapStart(m, g) == m.address + n;
      WordsAtConcat(mem, m.space, m.address, n, |p|);
      assert (ps + [p])[..|ps|] == ps;
    } else {
      assert ps + [] == ps;
    }
  }

  /** No word of `m` lies between one group and the next. */
  lemma {:induction false} NoGapInside(m: Mapping, gs: seq<ReadGroup>, k: nat)
    requires m.count >= 1 && Serving(m, gs) && k < |gs|
    ensures WordsBelow(m, Behind(gs, k)) == WordsBelow(m, gs[k].start)
  {
    if k > 0 {
      assert Behind(gs, k) <= gs[k].start;
    }
    if WordsBelow(m, Behind(gs, k)) < WordsBelow(m, gs[k].start) {
      var a := Max(m.address, Behind(gs, k));
      assert m.Covers(a);
      UnreadBetween(m, gs, k, a);
    }
  }

  lemma {:induction false} UnreadBetween(m: Mapping, gs: seq<ReadGroup>, k: nat, a: int)
    requires Serving(m, gs) && k < |gs| && Behind(gs, k) <= a < gs[k].start
    ensures !ReadBy(gs, a)
  {
    forall i | 0 <= i < |gs| ensures !gs[i].Reads(a) {
      if i < k - 1 {
        assert gs[i].start + gs[i].count <= gs[k - 1].start;
      } else if k < i {
        assert gs[k].start + gs[k].count <= gs[i].start;
      }
    }
  }

  /** One effect a piece, in order. */
  ghost predicate EffectPerPiece(style: Style, defs: Definitions, dates: DateRange, m: Mapping, es: seq<Effect>, ps: seq<seq<Word>>)
  {
    |es| == |ps| && forall i :: 0 <= i < |ps| ==> es[i] == PieceEffect(style, defs, dates, m, ToBytes(ps[i]))
  }

  lemma {:induction false} EffectsOfPieces(style: Style, defs: Definitions, dates: DateRange, m: Mapping, gs: seq<ReadGroup>, mem: Memory)
    requires forall i :: 0 <= i < |gs| ==> WordSpace(gs[i].space)
    ensures EffectPerPiece(style, defs, dates, m, MemberEffects(style, defs, dates, m, gs, mem), MemberPieces(m, gs, mem))
  {
    if gs != [] {
      var init, g := gs[..|gs| - 1], gs[|gs| - 1];
      EffectsOfPieces(style, defs, dates, m, init, mem);
      assert gs == init + [g];
      MemberEffectsConcat(style, defs, dates, m, init, [g], mem);
      SingleGroup(style, defs, dates, m, g, mem);
      EffectsOfNext(style, defs, dates, m, MemberEffects(style, defs, dates, m, init, mem), MemberPieces(m, init, mem), g, mem);
    }
  }

  lemma {:induction false} EffectsOfNext(style: Style, defs: Definitions, dates: DateRange, m: Mapping, es: seq<Effect>, ps: seq<seq<Word>>,
                                         g: ReadGroup, mem: Memory)
    requires WordSpace(g.space) && EffectPerPiece(style, defs, dates, m, es, ps)
    ensures EffectPerPiece(style, defs, dates, m, es + MemberEffect(style, defs, dates, m, g, mem), ps + MemberPiece(m, g, mem))
  {
    if Touches(m, g) {
      SliceHoldsTheWords(m, g, mem);
    }
  }
}
