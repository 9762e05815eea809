/** Mappings cut by a chunk boundary: what is published for them, and that exactly they are at risk. */
module Straddling {
  import opened Words
  import opened WordOrders
  import opened TagModel
  import opened Codec
  import opened Mappings
  import opened Planner
  import opened Registries
  import opened Scatter
  import opened GroupedReads
  import opened RoundTrip
  import opened DatePanics
  import Utf8

  /** The cell of a tag whose mapping was read directly. */
  function DirectCell(style: Style, m: Mapping, mem: Memory, dates: DateRange, before: Cell): Cell
  {
    match DirectRead(style, m, mem, dates)
    case Ok(v) => Cell(v, Good)
    case Err(_) => Cell(before.value, if style.Fins? then Error(DecodeFailed) else ConfigError)
  }

  /**
   * For any mapping, straddling or not: the cycle acts on its tag once per piece, in address order,
   * each piece decoded as if it were the whole value; the pieces are exactly the mapping's words.
   */
  lemma {:induction false} StraddlingIsDecodedPiecewise(style: Style, defs: Definitions, dates: DateRange, spaces: seq<Space>,
                                                        ms: seq<Mapping>, m: Mapping,
                                                        finsMax: nat, limit: nat, mem: Memory, cells: Cells) returns (ps: seq<seq<Word>>, es: seq<Effect>)
    requires finsMax >= 1 && Configured(ms, limit) && DistinctSpaces(spaces) && m in ms && m.space in spaces
    requires WordSpace(m.space) && Declared(m, defs, cells)
    ensures ps == MemberPieces(m, SpacePlan(m.space, ms, finsMax), mem)
    ensures TiledBelow(m, ps, mem, m.End()) && EffectPerPiece(style, defs, dates, m, es, ps)
    ensures m.tagId in AfterCycle(style, defs, dates, spaces, ms, finsMax, mem, cells)
    ensures AfterCycle(style, defs, dates, spaces, ms, finsMax, mem, cells)[m.tagId] == OnCellAll(defs, cells[m.tagId], es)
  {
    var gs := SpacePlan(m.space, ms, finsMax);
    TagEffects(style, defs, dates, spaces, ms, m, finsMax, limit, mem);
    OnlyOwnEffectsMatter(defs, cells, CycleEffects(style, defs, dates, FullPlan(spaces, ms, finsMax), mem), m.tagId);
    PlanServes(ms, m, finsMax, limit);
    HasWords(ms, m, limit);
    ps := MemberPieces(m, gs, mem);
    es := MemberEffects(style, defs, dates, m, gs, mem);
    PiecesTileTheMapping(m, gs, mem);
    EffectsOfPieces(style, defs, dates, m, gs, mem);
  }

  // ----- words that look the same when their bytes are swapped -----

  /** The two bytes of the word are equal. */
  predicate Even(w: Word)
  {
    w / 256 == w % 256
  }

  predicate AllEven(ws: seq<Word>)
  {
    forall i :: 0 <= i < |ws| ==> Even(ws[i])
  }

  /** Where the word seen at place `k` of `n` words comes from: word-swapping orders exchange pairs. */
  function SeenIndex(order: WordOrder, n: nat, k: nat): (i: nat)
    requires k < n
    ensures i < n
  {
    if order == ABCD || order == BADC then k
    else if k % 2 == 1 then k - 1
    else if k + 1 < n then k + 1
    else k
  }

  /** The words a driver sees behind an order, when no byte swap shows. */
  lemma {:induction false} SeenWord(order: WordOrder, ws: seq<Word>, k: nat)
    requires AllEven(ws) && k < |ws|
    ensures WordAt(Reordered(order, ToBytes(ws)), k) == ws[SeenIndex(order, |ws|, k)]
    decreases |ws|
  {
    if |ws| == 1 {
      LastSeen(order, ws[0]);
      assert ws == [ws[0]];
    } else {
      var head, rest := Chunk(order, ToBytes(ws)[..4]), Reordered(order, ToBytes(ws[2..]));
      PairSeen(order, ws[0], ws[1]);
      FirstPair(order, ws);
      if k < 2 {
        WordInFront(head, rest, k);
      } else {
        SeenWord(order, ws[2..], k - 2);
        WordBehind(head, rest, k);
        NextIndex(order, |ws|, k);
      }
    }
  }

  lemma {:induction false} NextIndex(order: WordOrder, n: nat, k: nat)
    requires 2 <= k < n
    ensures SeenIndex(order, n, k) == SeenIndex(order, n - 2, k - 2) + 2
  {
  }

  lemma {:induction false} FirstPair(order: WordOrder, ws: seq<Word>)
    requires |ws| >= 2
    ensures ToBytes(ws)[..4] == FourBytes(ws[0], ws[1])
    ensures Reordered(order, ToBytes(ws)) == Chunk(order, ToBytes(ws)[..4]) + Reordered(order, ToBytes(ws[2..]))
  {
    BytesOfCut(ws, 2);
    PairBytes(ws[0], ws[1]);
    assert ws[..2] == [ws[0], ws[1]];
  }

  function FourBytes(a: Word, b: Word): seq<Byte>
  {
    [a / 256, a % 256, b / 256, b % 256]
  }

  lemma {:induction false} PairBytes(a: Word, b: Word)
    ensures ToBytes([a, b]) == FourBytes(a, b)
  {
    assert [a, b][1..] == [b] && [b][1..] == [];
  }

  lemma {:induction false} PairSeen(order: WordOrder, a: Word, b: Word)
    requires Even(a) && Even(b)
    ensures var c := Chunk(order, FourBytes(a, b));
            && WordAt(c, 0) == (if order == ABCD || order == BADC then a else b)
            && WordAt(c, 1) == (if order == ABCD || order == BADC then b else a)
  {
  }

  lemma {:induction false} LastSeen(order: WordOrder, a: Word)
    requires Even(a)
    ensures WordAt(Reordered(order, ToBytes([a])), 0) == a
  {
    assert [a][1..] == [];
    assert ToBytes([a]) == [a / 256, a % 256];
  }

  lemma {:induction false} WordInFront(a: seq<Byte>, b: seq<Byte>, k: nat)
    requires 2 * k + 1 < |a|
    ensures WordAt(a + b, k) == WordAt(a, k)
  {
  }

  lemma {:induction false} WordBehind(a: seq<Byte>, b: seq<Byte>, k: nat)
    requires |a| == 4 && k >= 2
    ensures WordAt(a + b, k) == WordAt(b, k - 2)
  {
  }

  /** Memory of words with equal bytes. */
  ghost predicate EvenMemory(mem: Memory)
  {
    forall s: Space, a: int :: Even(mem(s, a))
  }

  lemma {:induction false} EvenWords(mem: Memory, s: Space, a: int, n: nat)
    requires EvenMemory(mem)
    ensures AllEven(WordsAt(mem, s, a, n))
  {
    if n > 0 {
      EvenWords(mem, s, a, n - 1);
    }
  }

  /** The bytes a driver decodes after reading `n` words from `a`. */
  function SeenBytes(order: WordOrder, mem: Memory, s: Space, a: int, n: nat): (bs: seq<Byte>)
    ensures |bs| == 2 * n
  {
    Reordered(order, ToBytes(WordsAt(mem, s, a, n)))
  }

  lemma {:induction false} SeenInMemory(order: WordOrder, mem: Memory, s: Space, a: int, n: nat, k: nat)
    requires EvenMemory(mem)
    ensures WordAt(SeenBytes(order, mem, s, a, n), k) == if k < n then mem(s, a + SeenIndex(order, n, k)) else 0
  {
    if k < n {
      EvenWords(mem, s, a, n);
      SeenWord(order, WordsAt(mem, s, a, n), k);
      WordAtOffset(mem, s, a, n, SeenIndex(order, n, k));
    }
  }

  // ----- a memory that tells a piece from the whole -----

  /** What a driver decodes once the order is undone. */
  function Plain(style: Style, t: TagDataType, bitOffset: Byte, bs: seq<Byte>, dates: DateRange): Decoded
  {
    match style
    case Fins => DecodeFins(t, bs, bitOffset, dates)
    case Modbus => DecodeModbus(t, bs, bitOffset, dates)
  }

  /** No read of the mapping ever decodes: it is narrower than its type, and the driver does not fill up with zeros. */
  predicate NeverDecodes(style: Style, m: Mapping)
  {
    m.count < Width(m.dataType) && (style.Fins? || m.dataType == DateTimeType)
  }

  /** One-word values in two words whose order puts the second word first. */
  predicate SecondWordFirst(m: Mapping)
  {
    Width(m.dataType) == 1 && m.count == 2 && (m.order == CDAB || m.order == DCBA)
  }

  /** With the last `l` words as last piece, the memory shows a whole that decodes and a piece that decodes differently. */
  ghost predicate Tells(style: Style, m: Mapping, l: nat, mem: Memory, dates: DateRange)
    requires l <= m.count
  {
    var whole := Plain(style, m.dataType, m.bitOffset, SeenBytes(m.order, mem, m.space, m.address, m.count), dates);
    whole.Ok? && Plain(style, m.dataType, m.bitOffset, SeenBytes(m.order, mem, m.space, m.End() - l, l), dates) != whole
  }

  /** Unless no read decodes or the second word comes first, some memory tells. */
  lemma {:induction false} Telling(style: Style, m: Mapping, l: nat, dates: DateRange) returns (mem: Memory)
    requires 1 <= l < m.count && m.bitOffset < 16 && dates.Valid()
    requires !NeverDecodes(style, m) && !SecondWordFirst(m)
    ensures Tells(style, m, l, mem, dates) && Harmless(m, l, mem)
  {
    var w := Width(m.dataType);
    if w == 0 {
      mem := Filled(m, 0x4141);
      FilledIsHarmless(m, l);
      TextTells(style, m, l, dates);
    } else if w == 1 {
      mem := Lone(m.space, m.address + SeenIndex(m.order, m.count, 0), 0xFFFF);
      LoneIsHarmless(m, l, m.address + SeenIndex(m.order, m.count, 0), 0xFFFF);
      OneWordTells(style, m, l, dates);
    } else if m.dataType == DateTimeType {
      mem := DateTells(style, m, l, dates);
    } else {
      mem := NumberTells(style, m, l, dates);
    }
  }

  lemma {:induction false} FilledIsHarmless(m: Mapping, l: nat)
    requires m.dataType != DateTimeType
    ensures Harmless(m, l, Filled(m, 0x4141))
  {
    FilledIsEven(m);
  }

  /** One nonzero word within the mapping; for a date, the fourth of its last words. */
  lemma {:induction false} LoneIsHarmless(m: Mapping, l: nat, a: int, w: Word)
    requires Even(w) && (w == 0 || (m.Covers(a) && (m.dataType == DateTimeType ==> a == m.End() - l + 3)))
    ensures Harmless(m, l, Lone(m.space, a, w))
  {
    LoneIsEven(m.space, a, w);
  }

  lemma {:induction false} NumberTells(style: Style, m: Mapping, l: nat, dates: DateRange) returns (mem: Memory)
    requires 1 <= l < m.count && WideNumber(m.dataType) && dates.Valid() && !NeverDecodes(style, m)
    ensures Tells(style, m, l, mem, dates) && Harmless(m, l, mem)
  {
    if l < Width(m.dataType) {
      mem := Filled(m, 0x4141);
      FilledIsHarmless(m, l);
      MissingWordTells(style, m, l, dates);
    } else {
      mem := Lone(m.space, m.address, 0x4141);
      LoneIsHarmless(m, l, m.address, 0x4141);
      FirstWordTells(style, m, l, dates);
    }
  }

  /** The mapping's words are all `w`, all others 0. */
  function Filled(m: Mapping, w: Word): Memory
  {
    (s: Space, a: int) => if s == m.space && m.Covers(a) then w else 0
  }

  predicate AllAre(bs: seq<Byte>, b: Byte)
  {
    forall i :: 0 <= i < |bs| ==> bs[i] == b
  }

  lemma {:induction false} LetterBytesAre(ws: seq<Word>)
    requires forall i :: 0 <= i < |ws| ==> ws[i] == 0x4141
    ensures AllAre(ToBytes(ws), 0x41)
  {
    if ws != [] {
      LetterBytesAre(ws[1..]);
    }
  }

  lemma {:induction false} LettersSeen(m: Mapping, a: int, n: nat)
    requires m.address <= a && a + n <= m.End()
    ensures AllAre(SeenBytes(m.order, Filled(m, 0x4141), m.space, a, n), 0x41)
  {
    var ws := WordsAt(Filled(m, 0x4141), m.space, a, n);
    forall i | 0 <= i < n ensures ws[i] == 0x4141 {
      WordAtOffset(Filled(m, 0x4141), m.space, a, n, i);
      assert m.Covers(a + i);
    }
    LetterBytesAre(ws);
    ConstantIsFixed(m.order, ToBytes(ws), 0x41);
  }

  lemma {:induction false} LettersArePublished(bs: seq<Byte>)
    requires AllAre(bs, 0x41)
    ensures Utf8.Published(bs) == bs
  {
    Utf8.AsciiIsValid(bs);
  }

  lemma {:induction false} TextTells(style: Style, m: Mapping, l: nat, dates: DateRange)
    requires 1 <= l < m.count && Width(m.dataType) == 0
    ensures Tells(style, m, l, Filled(m, 0x4141), dates)
  {
    var mem := Filled(m, 0x4141);
    var whole, piece := SeenBytes(m.order, mem, m.space, m.address, m.count), SeenBytes(m.order, mem, m.space, m.End() - l, l);
    LettersSeen(m, m.address, m.count);
    LettersSeen(m, m.End() - l, l);
    LettersArePublished(whole);
    LettersArePublished(piece);
    TextsDiffer(style, m.dataType, m.bitOffset, whole, piece, dates);
  }

  lemma {:induction false} TextsDiffer(style: Style, t: TagDataType, bitOffset: Byte, a: seq<Byte>, b: seq<Byte>, dates: DateRange)
    requires Width(t) == 0 && |b| < |a| && Utf8.Published(a) == a && Utf8.Published(b) == b
    ensures Plain(style, t, bitOffset, a, dates).Ok? && Plain(style, t, bitOffset, b, dates) != Plain(style, t, bitOffset, a, dates)
  {
  }

  lemma {:induction false} LoneIsEven(s: Space, a: int, w: Word)
    requires Even(w)
    ensures EvenMemory(Lone(s, a, w))
  {
  }

  lemma {:induction false} OneWordTells(style: Style, m: Mapping, l: nat, dates: DateRange)
    requires dates.Valid() && 1 <= l < m.count && m.bitOffset < 16 && Width(m.dataType) == 1 && !SecondWordFirst(m)
    ensures Tells(style, m, l, Lone(m.space, m.address + SeenIndex(m.order, m.count, 0), 0xFFFF), dates)
  {
    var mem := Lone(m.space, m.address + SeenIndex(m.order, m.count, 0), 0xFFFF);
    LoneIsEven(m.space, m.address + SeenIndex(m.order, m.count, 0), 0xFFFF);
    SeenInMemory(m.order, mem, m.space, m.address, m.count, 0);
    SeenInMemory(m.order, mem, m.space, m.End() - l, l, 0);
    OneWordsDiffer(style, m.dataType, m.bitOffset, SeenBytes(m.order, mem, m.space, m.address, m.count),
                   SeenBytes(m.order, mem, m.space, m.End() - l, l), dates);
  }

  lemma {:induction false} OneWordsDiffer(style: Style, t: TagDataType, bitOffset: Byte, a: seq<Byte>, b: seq<Byte>, dates: DateRange)
    requires dates.Valid() && Width(t) == 1 && bitOffset < 16 && |a| >= 2 && |b| >= 2 && WordAt(a, 0) == 0xFFFF && WordAt(b, 0) == 0
    ensures Plain(style, t, bitOffset, a, dates).Ok? && Plain(style, t, bitOffset, b, dates) != Plain(style, t, bitOffset, a, dates)
  {
    PlainWord(style, t, bitOffset, a, dates);
    PlainWord(style, t, bitOffset, b, dates);
    ModbusOneWordsDiffer(t, bitOffset, a, b, dates);
  }

  /** Both drivers read one-word values alike. */
  lemma {:induction false} PlainWord(style: Style, t: TagDataType, bitOffset: Byte, bs: seq<Byte>, dates: DateRange)
    requires dates.Valid() && Width(t) == 1 && |bs| >= 2
    ensures Plain(style, t, bitOffset, bs, dates) == DecodeModbus(t, bs, bitOffset, dates)
  {
    DecodersMeet(t, bitOffset, bs, dates);
  }

  lemma {:induction false} ModbusOneWordsDiffer(t: TagDataType, bitOffset: Byte, a: seq<Byte>, b: seq<Byte>, dates: DateRange)
    requires Width(t) == 1 && bitOffset < 16 && WordAt(a, 0) == 0xFFFF && WordAt(b, 0) == 0
    ensures DecodeModbus(t, a, bitOffset, dates).Ok?
    ensures DecodeModbus(t, b, bitOffset, dates) != DecodeModbus(t, a, bitOffset, dates)
  {
    BitOfConstants(bitOffset);
    DecodedWord(t, bitOffset, a, dates);
    DecodedWord(t, bitOffset, b, dates);
  }

  lemma {:induction false} DecodedWord(t: TagDataType, bitOffset: Byte, bs: seq<Byte>, dates: DateRange)
    requires Width(t) == 1
    ensures DecodeModbus(t, bs, bitOffset, dates) ==
            Ok(if t == BoolType then Bool(Bit(WordAt(bs, 0), bitOffset))
               else if t == Int16Type then Int16(Signed(WordAt(bs, 0), 0x1_0000))
               else UInt16(WordAt(bs, 0)))
  {
  }

  predicate WideNumber(t: TagDataType)
  {
    Width(t) > 1 && t != DateTimeType
  }

  lemma {:induction false} SameJoin64(a0: Word, a1: Word, a2: Word, a3: Word, b0: Word, b1: Word, b2: Word, b3: Word)
    requires Join64(a0, a1, a2, a3) == Join64(b0, b1, b2, b3)
    ensures a0 == b0 && a1 == b1 && a2 == b2 && a3 == b3
  {
    var x, y := Join64(a0, a1, a2, a3), Join64(b0, b1, b2, b3);
    assert x == ((a0 * 0x1_0000 + a1) * 0x1_0000 + a2) * 0x1_0000 + a3;
    assert y == ((b0 * 0x1_0000 + b1) * 0x1_0000 + b2) * 0x1_0000 + b3;
  }

  /** Numbers differ when one of their words does. */
  lemma {:induction false} NumbersDiffer(style: Style, t: TagDataType, bitOffset: Byte, a: seq<Byte>, b: seq<Byte>, k: nat, dates: DateRange)
    requires dates.Valid() && WideNumber(t) && k < Width(t) && WordAt(a, k) != WordAt(b, k) && (style.Fins? ==> |a| >= 2 * Width(t))
    ensures Plain(style, t, bitOffset, a, dates).Ok? && Plain(style, t, bitOffset, b, dates) != Plain(style, t, bitOffset, a, dates)
  {
    ModbusNumbersDiffer(t, bitOffset, a, b, k, dates);
    if style.Fins? {
      DecodersMeet(t, bitOffset, a, dates);
      DecodersMeet(t, bitOffset, b, dates);
    }
  }

  /** With enough bytes both drivers decode alike, numbers and one-word values. */
  lemma {:induction false} DecodersMeet(t: TagDataType, bitOffset: Byte, bs: seq<Byte>, dates: DateRange)
    requires dates.Valid() && (WideNumber(t) || (Width(t) == 1 && |bs| >= 2))
    ensures if |bs| >= 2 * Width(t) then DecodeFins(t, bs, bitOffset, dates) == DecodeModbus(t, bs, bitOffset, dates)
            else DecodeFins(t, bs, bitOffset, dates) == Err(NotEnoughData)
  {
    DecodersAgree(t, bs, bitOffset, dates);
  }

  lemma {:induction false} ModbusNumbersDiffer(t: TagDataType, bitOffset: Byte, a: seq<Byte>, b: seq<Byte>, k: nat, dates: DateRange)
    requires WideNumber(t) && k < Width(t) && WordAt(a, k) != WordAt(b, k)
    ensures DecodeModbus(t, a, bitOffset, dates).Ok?
    ensures DecodeModbus(t, b, bitOffset, dates) != DecodeModbus(t, a, bitOffset, dates)
  {
    if Width(t) == 2 {
      FirstsDiffer(a, b, k);
      Numbers32Differ(t, bitOffset, a, b, dates);
    } else {
      FirstsDiffer(a, b, k);
      Numbers64Differ(t, bitOffset, a, b, dates);
    }
  }

  lemma {:induction false} FirstsDiffer(a: seq<Byte>, b: seq<Byte>, k: nat)
    requires k < 4 && WordAt(a, k) != WordAt(b, k)
    ensures First64(a) != First64(b)
    ensures k < 2 ==> First32(a) != First32(b)
  {
    if First64(a) == First64(b) {
      SameFirst64(a, b);
    } else if k < 2 && First32(a) == First32(b) {
      SameFirst32(a, b);
    }
  }

  lemma {:induction false} SameFirst64(a: seq<Byte>, b: seq<Byte>)
    requires First64(a) == First64(b)
    ensures WordAt(a, 0) == WordAt(b, 0) && WordAt(a, 1) == WordAt(b, 1)
    ensures WordAt(a, 2) == WordAt(b, 2) && WordAt(a, 3) == WordAt(b, 3)
  {
    SameJoin64(WordAt(a, 0), WordAt(a, 1), WordAt(a, 2), WordAt(a, 3), WordAt(b, 0), WordAt(b, 1), WordAt(b, 2), WordAt(b, 3));
  }

  lemma {:induction false} SameFirst32(a: seq<Byte>, b: seq<Byte>)
    requires First32(a) == First32(b)
    ensures WordAt(a, 0) == WordAt(b, 0) && WordAt(a, 1) == WordAt(b, 1)
  {
  }

  lemma {:induction false} Numbers32Differ(t: TagDataType, bitOffset: Byte, a: seq<Byte>, b: seq<Byte>, dates: DateRange)
    requires Width(t) == 2 && First32(a) != First32(b)
    ensures DecodeModbus(t, a, bitOffset, dates).Ok?
    ensures DecodeModbus(t, b, bitOffset, dates) != DecodeModbus(t, a, bitOffset, dates)
  {
  }

  lemma {:induction false} Numbers64Differ(t: TagDataType, bitOffset: Byte, a: seq<Byte>, b: seq<Byte>, dates: DateRange)
    requires Width(t) == 4 && t != DateTimeType && First64(a) != First64(b)
    ensures DecodeModbus(t, a, bitOffset, dates).Ok?
    ensures DecodeModbus(t, b, bitOffset, dates) != DecodeModbus(t, a, bitOffset, dates)
  {
    Decoded64(t, bitOffset, a, dates);
    Decoded64(t, bitOffset, b, dates);
    SignedDiffers(First64(a), First64(b));
  }

  lemma {:induction false} Decoded64(t: TagDataType, bitOffset: Byte, bs: seq<Byte>, dates: DateRange)
    requires Width(t) == 4 && t != DateTimeType
    ensures DecodeModbus(t, bs, bitOffset, dates) ==
            Ok(if t == Int64Type then Int64(Signed(First64(bs), 0x1_0000_0000_0000_0000))
               else if t == UInt64Type then UInt64(First64(bs))
               else Double(First64(bs)))
  {
  }

  lemma {:induction false} SignedDiffers(x: U64, y: U64)
    ensures Signed(x, 0x1_0000_0000_0000_0000) == Signed(y, 0x1_0000_0000_0000_0000) <==> x == y
  {
  }

  /** A piece too short for the type lacks a word that the whole has. */
  lemma {:induction false} MissingWordTells(style: Style, m: Mapping, l: nat, dates: DateRange)
    requires dates.Valid() && 1 <= l < m.count && WideNumber(m.dataType) && l < Width(m.dataType) && !NeverDecodes(style, m)
    ensures Tells(style, m, l, Filled(m, 0x4141), dates)
  {
    var mem := Filled(m, 0x4141);
    FilledWordSeen(m, l);
    NoWordBehind(m.order, mem, m.space, m.End() - l, l);
    WideTells(style, m, l, mem, l, dates);
  }

  lemma {:induction false} FilledWordSeen(m: Mapping, l: nat)
    requires l < m.count
    ensures WordAt(SeenBytes(m.order, Filled(m, 0x4141), m.space, m.address, m.count), l) == 0x4141
  {
    FilledIsEven(m);
    FilledWord(m, SeenIndex(m.order, m.count, l));
    SeenInMemory(m.order, Filled(m, 0x4141), m.space, m.address, m.count, l);
  }

  lemma {:induction false} NoWordBehind(order: WordOrder, mem: Memory, s: Space, a: int, l: nat)
    ensures WordAt(SeenBytes(order, mem, s, a, l), l) == 0
  {
  }

  lemma {:induction false} FilledWord(m: Mapping, i: nat)
    requires i < m.count
    ensures Filled(m, 0x4141)(m.space, m.address + i) == 0x4141
  {
    assert m.Covers(m.address + i);
  }

  lemma {:induction false} FilledIsEven(m: Mapping)
    ensures EvenMemory(Filled(m, 0x4141))
  {
  }

  /** Whole and piece differ in word `k` of a number's words. */
  lemma {:induction false} WideTells(style: Style, m: Mapping, l: nat, mem: Memory, k: nat, dates: DateRange)
    requires dates.Valid() && 1 <= l < m.count && WideNumber(m.dataType) && k < Width(m.dataType) && !NeverDecodes(style, m)
    requires WordAt(SeenBytes(m.order, mem, m.space, m.address, m.count), k) != WordAt(SeenBytes(m.order, mem, m.space, m.End() - l, l), k)
    ensures Tells(style, m, l, mem, dates)
  {
    NumbersDiffer(style, m.dataType, m.bitOffset, SeenBytes(m.order, mem, m.space, m.address, m.count),
                  SeenBytes(m.order, mem, m.space, m.End() - l, l), k, dates);
  }

  /** A piece as long as the type or longer lacks the first word of the mapping, which the whole shows. */
  lemma {:induction false} FirstWordTells(style: Style, m: Mapping, l: nat, dates: DateRange)
    requires dates.Valid() && 1 <= l < m.count && WideNumber(m.dataType) && l >= Width(m.dataType)
    ensures Tells(style, m, l, Lone(m.space, m.address, 0x4141), dates)
  {
    var k := if m.order == ABCD || m.order == BADC then 0 else 1;
    LoneWordSeen(m.order, m.space, m.address, m.address, m.count, k);
    LoneWordSeen(m.order, m.space, m.address, m.End() - l, l, k);
    WideTells(style, m, l, Lone(m.space, m.address, 0x4141), k, dates);
  }

  /** The one word at `b` is seen at place `k` exactly by a read in which it comes first. */
  lemma {:induction false} LoneWordSeen(order: WordOrder, s: Space, b: int, a: int, n: nat, k: nat)
    requires b <= a && n >= 2 && k == if order == ABCD || order == BADC then 0 else 1
    ensures WordAt(SeenBytes(order, Lone(s, b, 0x4141), s, a, n), k) == if a == b then 0x4141 else 0
  {
    FirstIndex(order, n, k);
    LoneIsEven(s, b, 0x4141);
    SeenInMemory(order, Lone(s, b, 0x4141), s, a, n, k);
  }

  lemma {:induction false} FirstIndex(order: WordOrder, n: nat, k: nat)
    requires n >= 2 && k == if order == ABCD || order == BADC then 0 else 1
    ensures SeenIndex(order, n, k) == 0
  {
  }

  lemma {:induction false} DateTells(style: Style, m: Mapping, l: nat, dates: DateRange) returns (mem: Memory)
    requires 1 <= l < m.count && m.dataType == DateTimeType && m.count >= 4 && dates.Valid()
    ensures Tells(style, m, l, mem, dates) && Harmless(m, l, mem)
  {
    if l < 4 {
      mem := Lone(m.space, m.address, 0);
      LoneIsHarmless(m, l, m.address, 0);
      ShortDateTells(style, m, l, dates);
    } else {
      mem := Lone(m.space, m.End() - l + 3, 0x0101);
      LoneIsHarmless(m, l, m.End() - l + 3, 0x0101);
      LongDateTells(style, m, l, dates);
    }
  }

  lemma {:induction false} ShortDate(style: Style, bitOffset: Byte, bs: seq<Byte>, dates: DateRange)
    requires |bs| < 8
    ensures Plain(style, DateTimeType, bitOffset, bs, dates).Err?
  {
  }

  /** The first four words as a driver sees them. */
  lemma {:induction false} SeenDate(order: WordOrder, mem: Memory, s: Space, a: int, n: nat)
    requires EvenMemory(mem) && n >= 4
    ensures First64(SeenBytes(order, mem, s, a, n)) ==
            if order == ABCD || order == BADC then Join64(mem(s, a), mem(s, a + 1), mem(s, a + 2), mem(s, a + 3))
            else Join64(mem(s, a + 1), mem(s, a), mem(s, a + 3), mem(s, a + 2))
  {
    SeenInMemory(order, mem, s, a, n, 0);
    SeenInMemory(order, mem, s, a, n, 1);
    SeenInMemory(order, mem, s, a, n, 2);
    SeenInMemory(order, mem, s, a, n, 3);
  }

  lemma {:induction false} ShortDateTells(style: Style, m: Mapping, l: nat, dates: DateRange)
    requires 1 <= l < 4 <= m.count && m.dataType == DateTimeType && dates.Valid()
    ensures Tells(style, m, l, Lone(m.space, m.address, 0), dates)
  {
    LateDate(m.order, Lone(m.space, m.address, 0), m.space, m.address, m.count, 0);
    FinsDates(SeenBytes(m.order, Lone(m.space, m.address, 0), m.space, m.address, m.count), m.bitOffset, dates);
    DecodersAgree(DateTimeType, SeenBytes(m.order, Lone(m.space, m.address, 0), m.space, m.address, m.count), m.bitOffset, dates);
    ShortDate(style, m.bitOffset, SeenBytes(m.order, Lone(m.space, m.address, 0), m.space, m.End() - l, l), dates);
  }

  lemma {:induction false} LongDateTells(style: Style, m: Mapping, l: nat, dates: DateRange)
    requires 4 <= l < m.count && m.dataType == DateTimeType && dates.Valid()
    ensures Tells(style, m, l, Lone(m.space, m.End() - l + 3, 0x0101), dates)
  {
    var mem := Lone(m.space, m.End() - l + 3, 0x0101);
    LateDate(m.order, mem, m.space, m.address, m.count, 0);
    LateDate(m.order, mem, m.space, m.End() - l, l, 0x0101);
    DatesDiffer(style, m.bitOffset, SeenBytes(m.order, mem, m.space, m.address, m.count),
                SeenBytes(m.order, mem, m.space, m.End() - l, l), dates, LateTime(m.order, 0x0101));
  }

  /** A date with the one nonzero word `w` in its fourth place, as a driver sees it. */
  function LateTime(order: WordOrder, w: Word): U32
  {
    if order == ABCD || order == BADC then w else 0x1_0000 * (w as int)
  }

  lemma {:induction false} LateDate(order: WordOrder, mem: Memory, s: Space, a: int, n: nat, w: Word)
    requires EvenMemory(mem) && n >= 4 && mem(s, a) == 0 && mem(s, a + 1) == 0 && mem(s, a + 2) == 0 && mem(s, a + 3) == w
    ensures First64(SeenBytes(order, mem, s, a, n)) == LateTime(order, w)
  {
    SeenDate(order, mem, s, a, n);
    SmallJoin(0, w);
    SmallJoin(w, 0);
  }

  lemma {:induction false} SmallJoin(w2: Word, w3: Word)
    ensures Join64(0, 0, w2, w3) == 0x1_0000 * w2 + w3
  {
  }

  lemma {:induction false} DatesDiffer(style: Style, bitOffset: Byte, a: seq<Byte>, b: seq<Byte>, dates: DateRange, x: U32)
    requires |a| >= 8 && |b| >= 8 && dates.Valid() && First64(a) == 0 && First64(b) == x && x > 0
    ensures Plain(style, DateTimeType, bitOffset, a, dates).Ok?
    ensures Plain(style, DateTimeType, bitOffset, b, dates) != Plain(style, DateTimeType, bitOffset, a, dates)
  {
    FinsDates(a, bitOffset, dates);
    DecodersAgree(DateTimeType, a, bitOffset, dates);
    FinsDates(b, bitOffset, dates);
    DecodersAgree(DateTimeType, b, bitOffset, dates);
  }

  // ----- the last piece -----

  lemma {:induction false} MoreGroups(m: Mapping, init: seq<ReadGroup>, g: ReadGroup)
    ensures OneChunk(m, init) ==> OneChunk(m, init + [g])
  {
    if OneChunk(m, init) {
      var k :| 0 <= k < |init| && init[k].start <= m.address && m.End() <= init[k].start + init[k].count;
      assert (init + [g])[k] == init[k];
    }
  }

  /** The pieces' lengths do not depend on the memory. */
  lemma {:induction false} SameShape(m: Mapping, gs: seq<ReadGroup>, x: Memory, y: Memory, i: nat)
    ensures |MemberPieces(m, gs, x)| == |MemberPieces(m, gs, y)|
    ensures i < |MemberPieces(m, gs, x)| ==> |MemberPieces(m, gs, x)[i]| == |MemberPieces(m, gs, y)[i]|
  {
    if gs != [] {
      SameShape(m, gs[..|gs| - 1], x, y, i);
    }
  }

  /** Number of words of the last piece. */
  function LastCut(m: Mapping, gs: seq<ReadGroup>): nat
  {
    var ps := MemberPieces(m, gs, Lone(m.space, 0, 0));
    if ps == [] then 0 else |ps[|ps| - 1]|
  }

  lemma {:induction false} TilesHaveLength(m: Mapping, ps: seq<seq<Word>>, mem: Memory)
    requires m.count >= 1 && TiledBelow(m, ps, mem, m.End())
    ensures ps != [] && 1 <= |ps[|ps| - 1]| <= m.count
    ensures var l := |ps[|ps| - 1]|; ps[|ps| - 1] == WordsAt(mem, m.space, m.End() - l, l)
  {
    var whole := WordsAt(mem, m.space, m.address, m.count);
    assert Flatten(ps) == whole && |whole| == m.count;
    var init, last := Flatten(ps[..|ps| - 1]), ps[|ps| - 1];
    BehindPrefix(init, last);
    WordsAtSlice(mem, m.space, m.address, m.count, |init|, m.count);
  }

  lemma {:induction false} BehindPrefix(a: seq<Word>, b: seq<Word>)
    ensures (a + b)[|a|..|a + b|] == b
  {
  }

  /** The last piece in any memory is the last `LastCut` words. */
  lemma {:induction false} LastPieceIs(m: Mapping, gs: seq<ReadGroup>, mem: Memory)
    requires m.count >= 1 && TiledBelow(m, MemberPieces(m, gs, mem), mem, m.End())
    ensures var ps, l := MemberPieces(m, gs, mem), LastCut(m, gs);
            ps != [] && 1 <= l <= m.count && ps[|ps| - 1] == WordsAt(mem, m.space, m.End() - l, l)
  {
    var ps := MemberPieces(m, gs, mem);
    TilesHaveLength(m, ps, mem);
    SameShape(m, gs, mem, Lone(m.space, 0, 0), |ps| - 1);
  }

  /** Without a chunk that holds the mapping every piece is a proper part. */
  lemma {:induction false} PiecesAreShort(m: Mapping, gs: seq<ReadGroup>, mem: Memory, i: nat)
    requires m.count >= 1 && i < |MemberPieces(m, gs, mem)| && !OneChunk(m, gs)
    ensures |MemberPieces(m, gs, mem)[i]| < m.count
  {
    var init, g := gs[..|gs| - 1], gs[|gs| - 1];
    if i < |MemberPieces(m, init, mem)| {
      MoreGroups(m, init, g);
      assert gs == init + [g];
      PiecesAreShort(m, init, mem, i);
    } else {
      assert MemberPieces(m, gs, mem)[i] == PieceWords(m, g, mem);
      assert !(gs[|gs| - 1].start <= m.address && m.End() <= gs[|gs| - 1].start + gs[|gs| - 1].count);
    }
  }

  lemma {:induction false} LastEffectIs(defs: Definitions, c: Cell, es: seq<Effect>, e: Effect)
    requires es != [] && es[|es| - 1] == e
    ensures OnCellAll(defs, c, es) == OnCell(defs, OnCellAll(defs, c, es[..|es| - 1]), e)
  {
    LastEffect(defs, c, es);
  }

  // ----- cut, and wrong for some memory -----

  lemma {:induction false} EffectDiffers(style: Style, defs: Definitions, m: Mapping, piece: seq<Byte>, whole: seq<Byte>, dates: DateRange, c: Cell)
    requires m.tagId in defs && defs[m.tagId].dataType == m.dataType
    requires DecodeAs(style, m, whole, dates).Ok?
    requires DecodeAs(style, m, piece, dates) != DecodeAs(style, m, whole, dates)
    requires DecodeAs(style, m, piece, dates).Ok? ==> DecodeAs(style, m, piece, dates).value.Matches(m.dataType)
    ensures OnCell(defs, c, PieceEffect(style, defs, dates, m, piece)) != Cell(DecodeAs(style, m, whole, dates).value, Good)
  {
  }

  /** A memory that tells the last piece from the whole shows the cut. */
  lemma {:induction false} TellingShowsTheCut(style: Style, defs: Definitions, dates: DateRange, m: Mapping, gs: seq<ReadGroup>,
                                              es: seq<Effect>, mem: Memory, c: Cell)
    requires m.tagId in defs && defs[m.tagId].dataType == m.dataType && m.count >= 1
    requires TiledBelow(m, MemberPieces(m, gs, mem), mem, m.End())
    requires EffectPerPiece(style, defs, dates, m, es, MemberPieces(m, gs, mem))
    requires LastCut(m, gs) <= m.count && Tells(style, m, LastCut(m, gs), mem, dates)
    ensures OnCellAll(defs, c, es) != DirectCell(style, m, mem, dates, c)
  {
    LastPieceIs(m, gs, mem);
    CutShown(style, defs, dates, m, es, MemberPieces(m, gs, mem), LastCut(m, gs), mem, c);
  }

  lemma {:induction false} CutShown(style: Style, defs: Definitions, dates: DateRange, m: Mapping, es: seq<Effect>, ps: seq<seq<Word>>,
                                    l: nat, mem: Memory, c: Cell)
    requires m.tagId in defs && defs[m.tagId].dataType == m.dataType && l <= m.count && Tells(style, m, l, mem, dates)
    requires EffectPerPiece(style, defs, dates, m, es, ps) && ps != [] && ps[|ps| - 1] == WordsAt(mem, m.space, m.End() - l, l)
    ensures OnCellAll(defs, c, es) != DirectCell(style, m, mem, dates, c)
  {
    var ws := WordsAt(mem, m.space, m.End() - l, l);
    var piece, whole := ToBytes(ws), ToBytes(WordsAt(mem, m.space, m.address, m.count));
    LastPieceEffect(style, defs, dates, m, es, ps, ws);
    ToldApart(style, m, l, mem, dates, piece, whole);
    DecodedHasType(style, m, piece, dates);
    EffectDiffers(style, defs, m, piece, whole, dates, OnCellAll(defs, c, es[..|es| - 1]));
    LastEffectIs(defs, c, es, PieceEffect(style, defs, dates, m, piece));
  }

  lemma {:induction false} ToldApart(style: Style, m: Mapping, l: nat, mem: Memory, dates: DateRange, piece: seq<Byte>, whole: seq<Byte>)
    requires l <= m.count && Tells(style, m, l, mem, dates)
    requires piece == ToBytes(WordsAt(mem, m.space, m.End() - l, l)) && whole == ToBytes(WordsAt(mem, m.space, m.address, m.count))
    ensures DecodeAs(style, m, whole, dates).Ok? && DecodeAs(style, m, piece, dates) != DecodeAs(style, m, whole, dates)
  {
  }

  lemma {:induction false} LastPieceEffect(style: Style, defs: Definitions, dates: DateRange, m: Mapping, es: seq<Effect>,
                                           ps: seq<seq<Word>>, ws: seq<Word>)
    requires EffectPerPiece(style, defs, dates, m, es, ps) && ps != [] && ps[|ps| - 1] == ws
    ensures es != [] && es[|es| - 1] == PieceEffect(style, defs, dates, m, ToBytes(ws))
  {
  }

  // ----- cut, and still right -----

  lemma {:induction false} NothingDecodes(style: Style, m: Mapping, bytes: seq<Byte>, dates: DateRange)
    requires NeverDecodes(style, m) && |bytes| <= 2 * m.count
    ensures DecodeAs(style, m, bytes, dates).Err?
  {
  }

  lemma {:induction false} OnlyMarks(defs: Definitions, c: Cell, es: seq<Effect>, id: string, q: TagQuality)
    requires es != [] && forall i :: 0 <= i < |es| ==> es[i] == Mark(id, q)
    ensures OnCellAll(defs, c, es) == c.(quality := q)
    decreases |es|
  {
    if |es| > 1 {
      OnlyMarks(defs, OnCell(defs, c, es[0]), es[1..], id, q);
    } else {
      assert es[1..] == [];
    }
  }

  lemma {:induction false} NeverDecodedIsRight(style: Style, defs: Definitions, dates: DateRange, m: Mapping, gs: seq<ReadGroup>,
                                               es: seq<Effect>, mem: Memory, c: Cell)
    requires m.tagId in defs && m.count >= 1 && NeverDecodes(style, m) && !OneChunk(m, gs)
    requires TiledBelow(m, MemberPieces(m, gs, mem), mem, m.End())
    requires EffectPerPiece(style, defs, dates, m, es, MemberPieces(m, gs, mem))
    ensures OnCellAll(defs, c, es) == DirectCell(style, m, mem, dates, c)
  {
    var ps := MemberPieces(m, gs, mem);
    LastPieceIs(m, gs, mem);
    forall i | 0 <= i < |es| ensures es[i] == Mark(m.tagId, FailureQuality(style)) {
      PiecesAreShort(m, gs, mem, i);
      NothingDecodes(style, m, ToBytes(ps[i]), dates);
    }
    OnlyMarks(defs, c, es, m.tagId, FailureQuality(style));
    NothingDecodes(style, m, ToBytes(WordsAt(mem, m.space, m.address, m.count)), dates);
  }

  /** The second of two words comes first, alone or behind the first. */
  lemma {:induction false} SecondWordSeen(order: WordOrder, a: Word, b: Word)
    requires order == CDAB || order == DCBA
    ensures WordAt(Reordered(order, ToBytes([a, b])), 0) == WordAt(Reordered(order, ToBytes([b])), 0)
  {
    PairBytes(a, b);
    assert [b][1..] == [];
    assert ToBytes([b]) == [b / 256, b % 256];
    FirstPair(order, [a, b]);
    assert [a, b][2..] == [];
  }

  lemma {:induction false} SecondWordDecides(style: Style, m: Mapping, a: Word, b: Word, dates: DateRange)
    requires SecondWordFirst(m) && dates.Valid()
    ensures DecodeAs(style, m, ToBytes([b]), dates) == DecodeAs(style, m, ToBytes([a, b]), dates)
    ensures DecodeAs(style, m, ToBytes([a, b]), dates).Ok?
  {
    var pair, one := Reordered(m.order, ToBytes([a, b])), Reordered(m.order, ToBytes([b]));
    SecondWordSeen(m.order, a, b);
    PlainWord(style, m.dataType, m.bitOffset, pair, dates);
    PlainWord(style, m.dataType, m.bitOffset, one, dates);
    DecodedWord(m.dataType, m.bitOffset, pair, dates);
    DecodedWord(m.dataType, m.bitOffset, one, dates);
  }

  lemma {:induction false} TwoWords(mem: Memory, s: Space, a: int)
    ensures WordsAt(mem, s, a, 2) == [mem(s, a), mem(s, a + 1)] && WordsAt(mem, s, a + 1, 1) == [mem(s, a + 1)]
  {
    assert WordsAt(mem, s, a, 0) == [];
    assert WordsAt(mem, s, a, 1) == [mem(s, a)];
  }

  lemma {:induction false} SecondWordIsRight(style: Style, defs: Definitions, dates: DateRange, m: Mapping, gs: seq<ReadGroup>,
                                             es: seq<Effect>, mem: Memory, c: Cell)
    requires m.tagId in defs && defs[m.tagId].dataType == m.dataType && SecondWordFirst(m) && !OneChunk(m, gs) && dates.Valid()
    requires TiledBelow(m, MemberPieces(m, gs, mem), mem, m.End())
    requires EffectPerPiece(style, defs, dates, m, es, MemberPieces(m, gs, mem))
    ensures OnCellAll(defs, c, es) == DirectCell(style, m, mem, dates, c)
  {
    var ps := MemberPieces(m, gs, mem);
    LastPieceIs(m, gs, mem);
    PiecesAreShort(m, gs, mem, |ps| - 1);
    assert LastCut(m, gs) == 1;
    TwoWords(mem, m.space, m.address);
    var a, b := mem(m.space, m.address), mem(m.space, m.address + 1);
    SecondWordDecides(style, m, a, b, dates);
    DecodedHasType(style, m, ToBytes([b]), dates);
    LastEffectIs(defs, c, es, PieceEffect(style, defs, dates, m, ToBytes([b])));
  }

  // ----- a telling memory that panics nowhere -----

  /** A date whose first two words are 0 is in range. */
  ghost predicate Mild(mem: Memory, s: Space, a: int, n: nat)
  {
    EvenMemory(mem) && (n >= 4 ==> mem(s, a) == 0 && mem(s, a + 1) == 0)
  }

  lemma {:induction false} MildIsInRange(dates: DateRange, m: Mapping, mem: Memory, s: Space, a: int, n: nat)
    requires dates.Valid() && Mild(mem, s, a, n)
    ensures !DateTooLate(dates, m, WordsAt(mem, s, a, n))
  {
    if n >= 4 {
      SeenDate(m.order, mem, s, a, n);
      SmallJoin(mem(s, a + 2), mem(s, a + 3));
      SmallJoin(mem(s, a + 3), mem(s, a + 2));
    }
  }

  /** Only words of `m` can be nonzero; for a date, only the fourth of its last `l` words. */
  ghost predicate Harmless(m: Mapping, l: nat, mem: Memory)
  {
    && EvenMemory(mem)
    && (forall s: Space, a: int :: !(s == m.space && m.Covers(a)) ==> mem(s, a) == 0)
    && (m.dataType == DateTimeType ==> forall s: Space, a: int :: a != m.End() - l + 3 ==> mem(s, a) == 0)
  }

  /** No date tag but perhaps `m` itself shares words with `m`. */
  predicate DatesApart(ms: seq<Mapping>, m: Mapping)
  {
    forall n :: n in ms && n != m && n.space == m.space && n.dataType == DateTimeType ==> !Overlap(n, m)
  }

  predicate Ascending(gs: seq<ReadGroup>)
  {
    forall i, j :: 0 <= i < j < |gs| ==> gs[i].start + gs[i].count <= gs[j].start
  }

  /** The last piece is that of the group that reads the mapping's last word. */
  lemma {:induction false} LastPieceGroup(m: Mapping, gs: seq<ReadGroup>, mem: Memory, k: nat)
    requires m.count >= 1 && Ascending(gs) && k < |gs| && gs[k].Reads(m.End() - 1) && m in gs[k].members
    ensures var ps := MemberPieces(m, gs, mem); Touches(m, gs[k]) && ps != [] && ps[|ps| - 1] == PieceWords(m, gs[k], mem)
  {
    var n := |gs| - 1;
    if k < n {
      assert gs[k].start + gs[k].count <= gs[n].start;
      LastPieceGroup(m, gs[..n], mem, k);
    }
  }

  /** A group's piece of the mapping is the last one, or lies before it. */
  lemma {:induction false} PieceBeforeLast(m: Mapping, gs: seq<ReadGroup>, j: nat)
    requires m.count >= 1 && Serving(m, gs) && j < |gs| && Touches(m, gs[j])
    ensures LastCut(m, gs) <= m.count
    ensures if OverlapEnd(m, gs[j]) == m.End() then OverlapStart(m, gs[j]) == m.End() - LastCut(m, gs)
            else OverlapEnd(m, gs[j]) <= m.End() - LastCut(m, gs)
  {
    var k := GroupOfLast(m, gs);
    NoGroupBehind(m, gs, j, k);
    if j < k {
      assert gs[j].start + gs[j].count <= gs[k].start;
    }
  }

  /** The group that reads the last word gives the last piece. */
  lemma {:induction false} GroupOfLast(m: Mapping, gs: seq<ReadGroup>) returns (k: nat)
    requires m.count >= 1 && Serving(m, gs)
    ensures k < |gs| && gs[k].Reads(m.End() - 1) && OverlapEnd(m, gs[k]) == m.End()
    ensures LastCut(m, gs) == m.End() - OverlapStart(m, gs[k])
  {
    assert m.Covers(m.End() - 1);
    k :| 0 <= k < |gs| && gs[k].Reads(m.End() - 1);
    LastPieceGroup(m, gs, Lone(m.space, 0, 0), k);
  }

  lemma {:induction false} NoGroupBehind(m: Mapping, gs: seq<ReadGroup>, j: nat, k: nat)
    requires Ascending(gs) && j < |gs| && k < |gs| && gs[k].Reads(m.End() - 1)
    ensures Touches(m, gs[j]) ==> j <= k
  {
  }

  /** Every group of the plan is planned for some space. */
  lemma {:induction false} GroupOfPlan(spaces: seq<Space>, ms: seq<Mapping>, finsMax: nat, g: ReadGroup) returns (s: Space)
    requires finsMax >= 1 && g in FullPlan(spaces, ms, finsMax)
    ensures s in spaces && g in SpacePlan(s, ms, finsMax)
  {
    if g in SpacePlan(spaces[0], ms, finsMax) {
      s := spaces[0];
    } else {
      s := GroupOfPlan(spaces[1..], ms, finsMax, g);
    }
  }

  lemma {:induction false} PlannedSpace(s: Space, ms: seq<Mapping>, finsMax: nat, limit: nat, g: ReadGroup)
    requires finsMax >= 1 && Configured(ms, limit) && g in SpacePlan(s, ms, finsMax)
    ensures g.space == s
  {
    OwnIsPlannable(ms, s, limit);
    PlanReadsMappedWordsOnce(s, InSpace(ms, s), RequestLimit(s, finsMax), limit);
  }

  /** What a harmless memory gives any date tag of the plan is mild. */
  lemma {:induction false} HarmlessPiece(ms: seq<Mapping>, m: Mapping, n: Mapping, finsMax: nat, limit: nat, g: ReadGroup, mem: Memory)
    requires finsMax >= 1 && Configured(ms, limit) && m in ms && DatesApart(ms, m)
    requires Harmless(m, LastCut(m, SpacePlan(m.space, ms, finsMax)), mem) && n in ms && n.dataType == DateTimeType
    requires g in SpacePlan(n.space, ms, finsMax) && Touches(n, g)
    ensures Mild(mem, n.space, OverlapStart(n, g), OverlapEnd(n, g) - OverlapStart(n, g))
  {
    if n == m {
      OwnPiece(ms, m, finsMax, limit, g, mem);
    } else {
      forall a: int | OverlapStart(n, g) <= a < OverlapEnd(n, g) ensures mem(n.space, a) == 0 {
        assert n.Covers(a);
      }
    }
  }

  lemma {:induction false} OwnPiece(ms: seq<Mapping>, m: Mapping, finsMax: nat, limit: nat, g: ReadGroup, mem: Memory)
    requires finsMax >= 1 && Configured(ms, limit) && m in ms && m.dataType == DateTimeType
    requires Harmless(m, LastCut(m, SpacePlan(m.space, ms, finsMax)), mem) && g in SpacePlan(m.space, ms, finsMax) && Touches(m, g)
    ensures Mild(mem, m.space, OverlapStart(m, g), OverlapEnd(m, g) - OverlapStart(m, g))
  {
    var gs := SpacePlan(m.space, ms, finsMax);
    var j :| 0 <= j < |gs| && gs[j] == g;
    HasWords(ms, m, limit);
    PlanServes(ms, m, finsMax, limit);
    PieceBeforeLast(m, gs, j);
  }

  /** A FINS configuration reads areas only. */
  predicate AreasOnly(spaces: seq<Space>)
  {
    forall s :: s in spaces ==> s.Area?
  }

  /** A memory that is harmless for `m` lets the whole cycle run to its end. */
  lemma {:induction false} HarmlessRunsToEnd(defs: Definitions, dates: DateRange, spaces: seq<Space>, ms: seq<Mapping>, m: Mapping,
                                             finsMax: nat, limit: nat, mem: Memory)
    requires finsMax >= 1 && Configured(ms, limit) && m in ms && AreasOnly(spaces) && DatesApart(ms, m) && dates.Valid()
    requires Harmless(m, LastCut(m, SpacePlan(m.space, ms, finsMax)), mem)
    ensures RunsToEnd(Fins, defs, dates, spaces, ms, finsMax, mem)
  {
    var gs := FullPlan(spaces, ms, finsMax);
    forall k | 0 <= k < |gs| ensures WordSpace(gs[k].space) {
      var s := GroupOfPlan(spaces, ms, finsMax, gs[k]);
      PlannedSpace(s, ms, finsMax, limit, gs[k]);
    }
    forall k: nat, n: Mapping ensures !LateDateAt(defs, dates, gs, mem, k, n) {
      if k < |gs| && n in gs[k].members && Touches(n, gs[k]) && n.dataType == DateTimeType {
        var s := GroupOfPlan(spaces, ms, finsMax, gs[k]);
        NoLateDate(dates, s, ms, m, n, finsMax, limit, gs[k], mem);
      }
    }
    CycleEndsExactly(defs, dates, gs, mem);
  }

  lemma {:induction false} MemberOfPlan(s: Space, ms: seq<Mapping>, finsMax: nat, limit: nat, g: ReadGroup, n: Mapping)
    requires finsMax >= 1 && Configured(ms, limit) && g in SpacePlan(s, ms, finsMax) && n in g.members
    ensures n in ms && n.space == s == g.space
  {
    var j :| 0 <= j < |SpacePlan(s, ms, finsMax)| && SpacePlan(s, ms, finsMax)[j] == g;
    GroupMembers(s, ms, finsMax, limit, j);
    PlannedSpace(s, ms, finsMax, limit, g);
  }

  lemma {:induction false} NoLateDate(dates: DateRange, s: Space, ms: seq<Mapping>, m: Mapping, n: Mapping, finsMax: nat, limit: nat,
                                      g: ReadGroup, mem: Memory)
    requires finsMax >= 1 && Configured(ms, limit) && m in ms && DatesApart(ms, m) && dates.Valid()
    requires Harmless(m, LastCut(m, SpacePlan(m.space, ms, finsMax)), mem)
    requires g in SpacePlan(s, ms, finsMax) && n in g.members && n.dataType == DateTimeType && Touches(n, g)
    ensures !DateTooLate(dates, n, PieceWords(n, g, mem))
  {
    MemberOfPlan(s, ms, finsMax, limit, g, n);
    NoLateDateAmong(dates, ms, m, n, finsMax, limit, g, mem);
  }

  lemma {:induction false} NoLateDateAmong(dates: DateRange, ms: seq<Mapping>, m: Mapping, n: Mapping, finsMax: nat, limit: nat,
                                           g: ReadGroup, mem: Memory)
    requires finsMax >= 1 && Configured(ms, limit) && m in ms && DatesApart(ms, m) && dates.Valid()
    requires Harmless(m, LastCut(m, SpacePlan(m.space, ms, finsMax)), mem) && n in ms && n.dataType == DateTimeType
    requires g in SpacePlan(n.space, ms, finsMax) && g.space == n.space && Touches(n, g)
    ensures !DateTooLate(dates, n, PieceWords(n, g, mem))
  {
    HarmlessPiece(ms, m, n, finsMax, limit, g, mem);
    MildPiece(dates, n, g, mem);
  }

  lemma {:induction false} MildPiece(dates: DateRange, n: Mapping, g: ReadGroup, mem: Memory)
    requires dates.Valid() && Touches(n, g) && Mild(mem, g.space, OverlapStart(n, g), OverlapEnd(n, g) - OverlapStart(n, g))
    ensures !DateTooLate(dates, n, PieceWords(n, g, mem))
  {
    MildIsInRange(dates, n, mem, g.space, OverlapStart(n, g), OverlapEnd(n, g) - OverlapStart(n, g));
  }

  // ----- the exact condition -----

  /** After the cycle the tag is what a read of its own words gives. */
  ghost predicate ShowsDirectRead(style: Style, defs: Definitions, dates: DateRange, spaces: seq<Space>, ms: seq<Mapping>, m: Mapping,
                                  finsMax: nat, cells: Cells, mem: Memory)
    requires finsMax >= 1 && m.tagId in cells
  {
    var after := AfterCycle(style, defs, dates, spaces, ms, finsMax, mem, cells);
    m.tagId in after && after[m.tagId] == DirectCell(style, m, mem, dates, cells[m.tagId])
  }

  /** Mappings that grouped reads get right: read in one piece, never decoded at all, or decided by the second of two words. */
  ghost predicate GroupingIsHarmless(style: Style, m: Mapping, gs: seq<ReadGroup>)
  {
    OneChunk(m, gs) || NeverDecodes(style, m) || SecondWordFirst(m)
  }

  /**
   * A word-backed tag of any type, width and order is published as its direct read for every memory over
   * which the cycle runs to its end, exactly when one request reads all its words, or its mapping is narrower than its type and so never
   * decodes, or it is a one-word value in two words whose order puts the second word first. Every other
   * tag is wrong for some memory: cut in pieces, its last piece alone decides.
   */
  lemma {:induction false} GroupedReadIsExact(style: Style, defs: Definitions, dates: DateRange, spaces: seq<Space>, ms: seq<Mapping>, m: Mapping,
                                              finsMax: nat, limit: nat, cells: Cells)
    requires finsMax >= 1 && Configured(ms, limit) && DistinctSpaces(spaces) && m in ms && m.space in spaces
    requires WordSpace(m.space) && Declared(m, defs, cells) && m.bitOffset < 16 && dates.Valid()
    requires style.Fins? ==> AreasOnly(spaces) && DatesApart(ms, m)
    ensures (forall mem: Memory :: RunsToEnd(style, defs, dates, spaces, ms, finsMax, mem) ==>
               ShowsDirectRead(style, defs, dates, spaces, ms, m, finsMax, cells, mem))
            <==> GroupingIsHarmless(style, m, SpacePlan(m.space, ms, finsMax))
  {
    if GroupingIsHarmless(style, m, SpacePlan(m.space, ms, finsMax)) {
      forall mem: Memory | RunsToEnd(style, defs, dates, spaces, ms, finsMax, mem)
        ensures ShowsDirectRead(style, defs, dates, spaces, ms, m, finsMax, cells, mem)
      {
        HarmlessIsRight(style, defs, dates, spaces, ms, m, finsMax, limit, cells, mem);
      }
    } else {
      var mem := CutShows(style, defs, dates, spaces, ms, m, finsMax, limit, cells);
    }
  }

  lemma {:induction false} HarmlessIsRight(style: Style, defs: Definitions, dates: DateRange, spaces: seq<Space>, ms: seq<Mapping>, m: Mapping,
                                           finsMax: nat, limit: nat, cells: Cells, mem: Memory)
    requires finsMax >= 1 && Configured(ms, limit) && DistinctSpaces(spaces) && m in ms && m.space in spaces
    requires WordSpace(m.space) && Declared(m, defs, cells) && dates.Valid()
    requires GroupingIsHarmless(style, m, SpacePlan(m.space, ms, finsMax)) && RunsToEnd(style, defs, dates, spaces, ms, finsMax, mem)
    ensures ShowsDirectRead(style, defs, dates, spaces, ms, m, finsMax, cells, mem)
  {
    var gs := SpacePlan(m.space, ms, finsMax);
    if OneChunk(m, gs) {
      GroupedReadRefinesDirect(style, defs, dates, spaces, ms, m, finsMax, limit, mem, cells);
    } else {
      var ps, es := StraddlingIsDecodedPiecewise(style, defs, dates, spaces, ms, m, finsMax, limit, mem, cells);
      HasWords(ms, m, limit);
      if NeverDecodes(style, m) {
        NeverDecodedIsRight(style, defs, dates, m, gs, es, mem, cells[m.tagId]);
      } else {
        SecondWordIsRight(style, defs, dates, m, gs, es, mem, cells[m.tagId]);
      }
    }
  }

  lemma {:induction false} CutShows(style: Style, defs: Definitions, dates: DateRange, spaces: seq<Space>, ms: seq<Mapping>, m: Mapping,
                                    finsMax: nat, limit: nat, cells: Cells) returns (mem: Memory)
    requires finsMax >= 1 && Configured(ms, limit) && DistinctSpaces(spaces) && m in ms && m.space in spaces
    requires WordSpace(m.space) && Declared(m, defs, cells) && m.bitOffset < 16 && dates.Valid()
    requires !GroupingIsHarmless(style, m, SpacePlan(m.space, ms, finsMax))
    requires style.Fins? ==> AreasOnly(spaces) && DatesApart(ms, m)
    ensures RunsToEnd(style, defs, dates, spaces, ms, finsMax, mem)
    ensures !ShowsDirectRead(style, defs, dates, spaces, ms, m, finsMax, cells, mem)
  {
    var gs := SpacePlan(m.space, ms, finsMax);
    HasWords(ms, m, limit);
    CutIsProper(ms, m, finsMax, limit);
    mem := Telling(style, m, LastCut(m, gs), dates);
    if style.Fins? {
      HarmlessRunsToEnd(defs, dates, spaces, ms, m, finsMax, limit, mem);
    } else {
      ModbusNeverPanics(defs, dates, FullPlan(spaces, ms, finsMax), mem);
    }
    var ps, es := StraddlingIsDecodedPiecewise(style, defs, dates, spaces, ms, m, finsMax, limit, mem, cells);
    TellingShowsTheCut(style, defs, dates, m, gs, es, mem, cells[m.tagId]);
  }

  lemma {:induction false} CutIsProper(ms: seq<Mapping>, m: Mapping, finsMax: nat, limit: nat)
    requires finsMax >= 1 && Configured(ms, limit) && m in ms && m.count >= 1
    requires !OneChunk(m, SpacePlan(m.space, ms, finsMax))
    ensures 1 <= LastCut(m, SpacePlan(m.space, ms, finsMax)) < m.count
  {
    var gs, mem := SpacePlan(m.space, ms, finsMax), Lone(m.space, 0, 0);
    PlanServes(ms, m, finsMax, limit);
    PiecesTileTheMapping(m, gs, mem);
    LastPieceIs(m, gs, mem);
    PiecesAreShort(m, gs, mem, |MemberPieces(m, gs, mem)| - 1);
  }
}
