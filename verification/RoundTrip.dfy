/** When a written value is read back as itself, for every value, order and register content. */
module RoundTrip {
  import opened Words
  import opened WordOrders
  import opened TagModel
  import opened Codec
  import Utf8

  /** The words on the wire for the standard words `ws`: split into bytes, byte-ordered, joined again. */
  function OnWire(ws: seq<Word>, order: WordOrder): (r: seq<Word>)
    ensures |r| == |ws|
  {
    ToWords(Reordered(order, ToBytes(ws)))
  }

  /** The words a driver writes for `v`. */
  function Stored(v: TagValue, order: WordOrder): (ws: seq<Word>)
    ensures |ws| == |Encode(v)|
  {
    OnWire(Encode(v), order)
  }

  /** The bytes a driver decodes after reading `ws`. */
  function Fetched(ws: seq<Word>, order: WordOrder): (bs: seq<Byte>)
    ensures |bs| == 2 * |ws|
  {
    Reordered(order, ToBytes(ws))
  }

  lemma {:induction false} WireBytes(ws: seq<Word>, order: WordOrder)
    ensures ToBytes(OnWire(ws, order)) == Reordered(order, ToBytes(ws))
  {
    BytesSurviveWords(Reordered(order, ToBytes(ws)));
  }

  /** Words that fill the mapping come back as their bytes, in every order. */
  lemma {:induction false} FilledMapping(ws: seq<Word>, order: WordOrder)
    ensures Fetched(OnWire(ws, order), order) == ToBytes(ws)
  {
    WireBytes(ws, order);
    ComposedReordering(order, order, ToBytes(ws));
    IdentityOrder(ToBytes(ws));
  }

  /** An even number of written words comes back in front of whatever follows them. */
  lemma {:induction false} LeadingWords(ws: seq<Word>, order: WordOrder, rest: seq<Word>)
    requires |ws| % 2 == 0
    ensures Fetched(OnWire(ws, order) + rest, order) == ToBytes(ws) + Reordered(order, ToBytes(rest))
  {
    var stored := OnWire(ws, order);
    FilledMapping(ws, order);
    BytesOfConcat(stored, rest);
    FourBytesAPair(|stored|);
    ReorderedConcat(order, ToBytes(stored), ToBytes(rest));
  }

  lemma {:induction false} FourBytesAPair(n: nat)
    requires n % 2 == 0
    ensures (2 * n) % 4 == 0
  {
  }

  /** The first word fetched when a single word was written in front of `rest`. */
  function FirstWordBack(w: Word, order: WordOrder, rest: seq<Word>): Word
  {
    if rest == [] || order == ABCD || order == BADC then w
    else if order == CDAB then rest[0]
    else JoinBytes(rest[0] % 256, rest[0] / 256)
  }

  lemma {:induction false} SingleWord(w: Word, order: WordOrder, rest: seq<Word>)
    ensures WordAt(Fetched(OnWire([w], order) + rest, order), 0) == FirstWordBack(w, order, rest)
  {
    WireBytes([w], order);
    var out := Reordered(order, ToBytes([w]));
    assert out == if order == BADC || order == DCBA then [w % 256, w / 256] else [w / 256, w % 256];
    FetchedWord(OnWire([w], order), order, rest, out);
  }

  lemma {:induction false} FetchedWord(stored: seq<Word>, order: WordOrder, rest: seq<Word>, out: seq<Byte>)
    requires |stored| == 1 && out == ToBytes(stored)
    ensures WordAt(Fetched(stored + rest, order), 0) ==
            FirstWordBack(if order == BADC || order == DCBA then JoinBytes(out[1], out[0]) else stored[0], order, rest)
  {
    if rest == [] {
      assert stored + rest == stored;
      OneWordBack(stored, order, out);
    } else {
      FirstOfSeveral(stored + rest, order);
      BytesOfWord(stored, 0);
    }
  }

  /** The first word seen of two or more. */
  lemma {:induction false} FirstOfSeveral(ws: seq<Word>, order: WordOrder)
    requires |ws| >= 2
    ensures WordAt(Fetched(ws, order), 0) ==
            match order
            case ABCD => ws[0]
            case BADC => JoinBytes(ws[0] % 256, ws[0] / 256)
            case CDAB => ws[1]
            case DCBA => JoinBytes(ws[1] % 256, ws[1] / 256)
  {
    BytesOfWord(ws, 0);
    BytesOfWord(ws, 1);
    FirstChunk(order, ToBytes(ws));
  }

  lemma {:induction false} OneWordBack(stored: seq<Word>, order: WordOrder, out: seq<Byte>)
    requires |stored| == 1 && out == ToBytes(stored)
    ensures WordAt(Fetched(stored, order), 0) == if order == BADC || order == DCBA then JoinBytes(out[1], out[0]) else stored[0]
  {
    BytesOfWord(stored, 0);
    assert out == [out[0], out[1]];
  }

  /** The first two bytes of a reordered buffer that starts with a complete chunk. */
  lemma {:induction false} FirstChunk(order: WordOrder, bs: seq<Byte>)
    requires |bs| >= 4
    ensures var r, c := Reordered(order, bs), Chunk(order, bs[..4]); r[0] == c[0] && r[1] == c[1]
  {
  }

  // ----- the exact condition -----

  /** A string value holds well-formed UTF-8, as every string of the program does. */
  predicate IsText(v: TagValue)
  {
    v.String? ==> Utf8.Valid(v.text)
  }

  /** Trailing NULs are lost when a text is published. */
  predicate KeepsNuls(t: seq<Byte>)
  {
    t == [] || t[|t| - 1] != 0
  }

  /**
   * Whether a value written at the start of a mapping with `spare` further words is read back as
   * itself whatever those words hold.
   */
  predicate Survives(v: TagValue, order: WordOrder, spare: nat, bitOffset: Byte, first: int, last: int)
  {
    match v
    case DateTime(ms) => first <= ms <= last
    case Bool(b) => (spare == 0 || order == ABCD || order == BADC) && (b ==> bitOffset == 0)
    case Int16(_) => spare == 0 || order == ABCD || order == BADC
    case UInt16(_) => spare == 0 || order == ABCD || order == BADC
    case String(s) => spare == 0 && KeepsNuls(s)
    case ByteString(b) => spare == 0 && |b| % 2 == 0
    case _ => true
  }

  /** Values of one word. */
  predicate Narrow(v: TagValue)
  {
    v.Bool? || v.Int16? || v.UInt16?
  }

  function ReadBack(v: TagValue, order: WordOrder, rest: seq<Word>, bitOffset: Byte, dates: DateRange): Decoded
  {
    ReadAs(v.DataType(), Stored(v, order) + rest, order, bitOffset, dates)
  }

  /** A Modbus read of the words `ws` as a value of type `t`. */
  function ReadAs(t: TagDataType, ws: seq<Word>, order: WordOrder, bitOffset: Byte, dates: DateRange): Decoded
  {
    DecodeModbus(t, Fetched(ws, order), bitOffset, dates)
  }

  function ReadBackFins(v: TagValue, order: WordOrder, rest: seq<Word>, bitOffset: Byte, dates: DateRange): Decoded
  {
    DecodeFins(v.DataType(), Fetched(Stored(v, order) + rest, order), bitOffset, dates)
  }

  /**
   * Codec round trip of the Modbus driver, exactly: a written value is read back as itself for
   * every content of the mapping's remaining words if and only if `Survives` says so.
   */
  lemma {:induction false} RoundTripModbus(v: TagValue, order: WordOrder, spare: nat, bitOffset: Byte, dates: DateRange)
    requires dates.Valid() && bitOffset < 16 && IsText(v)
    ensures (forall rest: seq<Word> :: |rest| == spare ==> ReadBack(v, order, rest, bitOffset, dates) == Ok(v)) <==>
            Survives(v, order, spare, bitOffset, dates.first, dates.last)
  {
    if Survives(v, order, spare, bitOffset, dates.first, dates.last) {
      forall rest: seq<Word> | |rest| == spare ensures ReadBack(v, order, rest, bitOffset, dates) == Ok(v) {
        SurvivorComesBack(v, order, rest, bitOffset, dates);
      }
    } else {
      var rest := Spoiler(v, order, spare, bitOffset, dates);
    }
  }

  /** The same for the FINS driver, which reads dates as unsigned and so keeps none before 1970. */
  lemma {:induction false} RoundTripFins(v: TagValue, order: WordOrder, spare: nat, bitOffset: Byte, dates: DateRange)
    requires dates.Valid() && bitOffset < 16 && IsText(v)
    ensures (forall rest: seq<Word> :: |rest| == spare ==> ReadBackFins(v, order, rest, bitOffset, dates) == Ok(v)) <==>
            Survives(v, order, spare, bitOffset, 0, dates.last)
  {
    if Survives(v, order, spare, bitOffset, 0, dates.last) {
      forall rest: seq<Word> | |rest| == spare ensures ReadBackFins(v, order, rest, bitOffset, dates) == Ok(v) {
        FinsSurvivor(v, order, rest, bitOffset, dates);
      }
    } else {
      var rest := FinsSpoiler(v, order, spare, bitOffset, dates);
    }
  }

  lemma {:induction false} FinsSurvivor(v: TagValue, order: WordOrder, rest: seq<Word>, bitOffset: Byte, dates: DateRange)
    requires dates.Valid() && bitOffset < 16 && IsText(v)
    requires Survives(v, order, |rest|, bitOffset, 0, dates.last)
    ensures ReadBackFins(v, order, rest, bitOffset, dates) == Ok(v)
  {
    assert Survives(v, order, |rest|, bitOffset, dates.first, dates.last);
    SurvivorComesBack(v, order, rest, bitOffset, dates);
    FinsReadBack(v, order, rest, bitOffset, dates);
    if v.DateTime? {
      DateBytes(v.millis, order, rest);
    }
  }

  lemma {:induction false} FinsSpoiler(v: TagValue, order: WordOrder, spare: nat, bitOffset: Byte, dates: DateRange) returns (rest: seq<Word>)
    requires dates.Valid() && bitOffset < 16 && IsText(v)
    requires !Survives(v, order, spare, bitOffset, 0, dates.last)
    ensures |rest| == spare && ReadBackFins(v, order, rest, bitOffset, dates) != Ok(v)
  {
    if v.DateTime? {
      rest := Zeros(spare);
      DateBytes(v.millis, order, rest);
      FinsDates(Fetched(Stored(v, order) + rest, order), bitOffset, dates);
    } else {
      rest := Spoiler(v, order, spare, bitOffset, dates);
      FinsReadBack(v, order, rest, bitOffset, dates);
    }
  }

  /** A FINS date is the unsigned value of its eight bytes. */
  lemma {:induction false} FinsDates(bs: seq<Byte>, bitOffset: Byte, dates: DateRange)
    requires |bs| >= 8
    ensures DecodeFins(DateTimeType, bs, bitOffset, dates) ==
            if First64(bs) <= dates.last then Ok(DateTime(First64(bs))) else Err(DatePanics)
  {
    Be64IsFirst64(bs);
  }

  lemma {:induction false} FinsReadBack(v: TagValue, order: WordOrder, rest: seq<Word>, bitOffset: Byte, dates: DateRange)
    requires dates.Valid()
    ensures !v.DateTime? ==> ReadBackFins(v, order, rest, bitOffset, dates) == ReadBack(v, order, rest, bitOffset, dates)
    ensures v.DateTime? ==>
              (ReadBackFins(v, order, rest, bitOffset, dates) == ReadBack(v, order, rest, bitOffset, dates) <==>
               First64(Fetched(Stored(v, order) + rest, order)) <= dates.last)
  {
    DecodersAgree(v.DataType(), Fetched(Stored(v, order) + rest, order), bitOffset, dates);
  }

  function Zeros(n: nat): (ws: seq<Word>)
    ensures |ws| == n
  {
    seq(n, i => 0)
  }

  lemma {:induction false} DateBytes(ms: I64, order: WordOrder, rest: seq<Word>)
    ensures First64(Fetched(Stored(DateTime(ms), order) + rest, order)) == Unsigned(ms, 0x1_0000_0000_0000_0000)
  {
    var u := Unsigned(ms, 0x1_0000_0000_0000_0000);
    var ws := U64ToWords(u);
    assert Encode(DateTime(ms)) == ws;
    LeadingWords(ws, order, rest);
    FirstWords(ws, Reordered(order, ToBytes(rest)));
    Join64OfWords(u);
  }

  /** The leading words of a byte image, however it continues. */
  lemma {:induction false} FirstWords(ws: seq<Word>, more: seq<Byte>)
    ensures forall k :: 0 <= k < |ws| ==> WordAt(ToBytes(ws) + more, k) == ws[k]
  {
    forall k | 0 <= k < |ws| ensures WordAt(ToBytes(ws) + more, k) == ws[k] {
      BytesOfWord(ws, k);
    }
  }

  lemma {:induction false} SurvivorComesBack(v: TagValue, order: WordOrder, rest: seq<Word>, bitOffset: Byte, dates: DateRange)
    requires dates.Valid() && IsText(v)
    requires Survives(v, order, |rest|, bitOffset, dates.first, dates.last)
    ensures ReadBack(v, order, rest, bitOffset, dates) == Ok(v)
  {
    if Narrow(v) {
      assert Encode(v) == [Encode(v)[0]];
      SingleWord(Encode(v)[0], order, rest);
      NarrowDecodes(v, Fetched(Stored(v, order) + rest, order), bitOffset, dates);
    } else if v.String? {
      StoredBytes(v, v.text, order);
      TextSurvivor(v.text, order, bitOffset, dates);
    } else if v.ByteString? {
      StoredBytes(v, v.bytes, order);
      ByteStringSurvivor(v.bytes, order, bitOffset, dates);
    } else {
      WideSurvivor(v, order, rest, bitOffset, dates);
    }
  }

  lemma {:induction false} StoredBytes(v: TagValue, content: seq<Byte>, order: WordOrder)
    requires v == String(content) || v == ByteString(content)
    ensures Stored(v, order) == BytesOnWire(content, order)
    ensures v.DataType() == if v.String? then StringType else ByteStringType
  {
  }

  /** The words of a text or byte string on the wire. */
  function BytesOnWire(content: seq<Byte>, order: WordOrder): seq<Word>
  {
    OnWire(ToWords(Pad(content)), order)
  }

  lemma {:induction false} TextSurvivor(t: seq<Byte>, order: WordOrder, bitOffset: Byte, dates: DateRange)
    requires Utf8.Valid(t) && KeepsNuls(t)
    ensures ReadAs(StringType, BytesOnWire(t, order) + [], order, bitOffset, dates) == Ok(String(t))
  {
    FilledByBytes(t, order);
    Utf8.PaddedTextIsPublished(t, Pad(t));
  }

  lemma {:induction false} ByteStringSurvivor(b: seq<Byte>, order: WordOrder, bitOffset: Byte, dates: DateRange)
    requires |b| % 2 == 0
    ensures ReadAs(ByteStringType, BytesOnWire(b, order) + [], order, bitOffset, dates) == Ok(ByteString(b))
  {
    FilledByBytes(b, order);
  }

  lemma {:induction false} WideSurvivor(v: TagValue, order: WordOrder, rest: seq<Word>, bitOffset: Byte, dates: DateRange)
    requires Width(v.DataType()) > 1 && Survives(v, order, |rest|, bitOffset, dates.first, dates.last)
    ensures ReadBack(v, order, rest, bitOffset, dates) == Ok(v)
  {
    LeadingWords(Encode(v), order, rest);
    FirstWords(Encode(v), Reordered(order, ToBytes(rest)));
    WideDecodes(v, Fetched(Stored(v, order) + rest, order), bitOffset, dates);
  }

  lemma {:induction false} NarrowDecodes(v: TagValue, bs: seq<Byte>, bitOffset: Byte, dates: DateRange)
    requires Narrow(v) && WordAt(bs, 0) == Encode(v)[0]
    requires v.Bool? && v.bit ==> bitOffset == 0
    ensures DecodeModbus(v.DataType(), bs, bitOffset, dates) == Ok(v)
  {
    match v
    case Bool(b) => BoolDecodes(b, bs, bitOffset, dates);
    case Int16(x) => Int16Decodes(x, bs, bitOffset, dates);
    case UInt16(x) => assert DecodeModbus(UInt16Type, bs, bitOffset, dates) == Ok(UInt16(WordAt(bs, 0)));
  }

  lemma {:induction false} BoolDecodes(b: bool, bs: seq<Byte>, bitOffset: Byte, dates: DateRange)
    requires WordAt(bs, 0) == (if b then 1 else 0) && (b ==> bitOffset == 0)
    ensures DecodeModbus(BoolType, bs, bitOffset, dates) == Ok(Bool(b))
  {
    ZeroHasNoBits(bitOffset);
  }

  lemma {:induction false} Int16Decodes(x: I16, bs: seq<Byte>, bitOffset: Byte, dates: DateRange)
    requires WordAt(bs, 0) == Unsigned(x, 0x1_0000)
    ensures DecodeModbus(Int16Type, bs, bitOffset, dates) == Ok(Int16(x))
  {
  }

  lemma {:induction false} WideDecodes(v: TagValue, bs: seq<Byte>, bitOffset: Byte, dates: DateRange)
    requires Width(v.DataType()) > 1 && |bs| >= 2 * Width(v.DataType())
    requires forall k :: 0 <= k < |Encode(v)| ==> WordAt(bs, k) == Encode(v)[k]
    requires v.DateTime? ==> dates.first <= v.millis <= dates.last
    ensures DecodeModbus(v.DataType(), bs, bitOffset, dates) == Ok(v)
  {
    WideValue(v);
  }

  /** What is fetched from a mapping that a text or byte string fills is its padded content. */
  lemma {:induction false} FilledByBytes(content: seq<Byte>, order: WordOrder)
    ensures Fetched(BytesOnWire(content, order) + [], order) == Pad(content)
  {
    var ws := ToWords(Pad(content));
    assert OnWire(ws, order) + [] == OnWire(ws, order);
    FilledMapping(ws, order);
    BytesSurviveWords(Pad(content));
  }

  lemma {:induction false} WideValue(v: TagValue)
    requires Width(v.DataType()) > 1
    ensures var ws := Encode(v);
            match v
            case UInt32(x) => Join32(ws[0], ws[1]) == x
            case Int32(x) => Signed(Join32(ws[0], ws[1]), 0x1_0000_0000) == x
            case Float(x) => Join32(ws[0], ws[1]) == x
            case UInt64(x) => Join64(ws[0], ws[1], ws[2], ws[3]) == x
            case Double(x) => Join64(ws[0], ws[1], ws[2], ws[3]) == x
            case Int64(x) => Signed(Join64(ws[0], ws[1], ws[2], ws[3]), 0x1_0000_0000_0000_0000) == x
            case DateTime(x) => Signed(Join64(ws[0], ws[1], ws[2], ws[3]), 0x1_0000_0000_0000_0000) == x
            case _ => true
  {
    match v
    case UInt64(x) => Join64OfWords(x);
    case Double(x) => Join64OfWords(x);
    case Int64(x) => Join64OfWords(Unsigned(x, 0x1_0000_0000_0000_0000));
    case DateTime(x) => Join64OfWords(Unsigned(x, 0x1_0000_0000_0000_0000));
    case _ =>
  }

  // ----- contents that spoil a value that does not survive -----

  lemma {:induction false} Spoiler(v: TagValue, order: WordOrder, spare: nat, bitOffset: Byte, dates: DateRange) returns (rest: seq<Word>)
    requires dates.Valid() && bitOffset < 16 && IsText(v)
    requires !Survives(v, order, spare, bitOffset, dates.first, dates.last)
    ensures |rest| == spare && ReadBack(v, order, rest, bitOffset, dates) != Ok(v)
  {
    if v.DateTime? {
      rest := Zeros(spare);
      DateBytes(v.millis, order, rest);
    } else if v.String? {
      StoredBytes(v, v.text, order);
      rest := SpoiledText(v.text, order, spare, bitOffset, dates);
    } else if v.ByteString? {
      rest := Zeros(spare);
      StoredBytes(v, v.bytes, order);
      ByteStringLength(v.bytes, order, rest, bitOffset, dates);
    } else {
      rest := SpoiledWord(v, order, spare, bitOffset, dates);
    }
  }

  /** A byte string is read back with every byte of the mapping. */
  lemma {:induction false} ByteStringLength(b: seq<Byte>, order: WordOrder, rest: seq<Word>, bitOffset: Byte, dates: DateRange)
    ensures var r := ReadAs(ByteStringType, BytesOnWire(b, order) + rest, order, bitOffset, dates);
            r.Ok? && r.value.ByteString? && |r.value.bytes| == |Pad(b)| + 2 * |rest|
  {
  }

  /** A single word under CDAB or DCBA is read from the word behind it. */
  lemma {:induction false} SpoiledWord(v: TagValue, order: WordOrder, spare: nat, bitOffset: Byte, dates: DateRange) returns (rest: seq<Word>)
    requires bitOffset < 16 && Narrow(v)
    requires !Survives(v, order, spare, bitOffset, dates.first, dates.last)
    ensures |rest| == spare && ReadBack(v, order, rest, bitOffset, dates) != Ok(v)
  {
    var w := SpoilingWord(v);
    rest := seq(spare, i => w);
    var bs := Fetched(Stored(v, order) + rest, order);
    assert Encode(v) == [Encode(v)[0]];
    SingleWord(Encode(v)[0], order, rest);
    if spare == 0 || order == ABCD || order == BADC {
      assert v == Bool(true) && WordAt(bs, 0) == 1;
      BitOfConstants(bitOffset);
    } else {
      SpoiledFirst(Encode(v)[0], order, rest, w);
      OtherWordDecodes(v, bs, bitOffset, dates);
    }
  }

  /** A word behind that has equal bytes comes back as itself. */
  lemma {:induction false} SpoiledFirst(first: Word, order: WordOrder, rest: seq<Word>, w: Word)
    requires rest != [] && rest[0] == w && (w == 0 || w == 0xFFFF) && (order == CDAB || order == DCBA)
    ensures FirstWordBack(first, order, rest) == w
  {
  }

  /** A word of equal bytes that no narrow value `v` is read from. */
  function SpoilingWord(v: TagValue): (w: Word)
    requires Narrow(v)
    ensures w == 0 || w == 0xFFFF
  {
    if v.Bool? then (if v.bit then 0 else 0xFFFF)
    else if Encode(v)[0] == 0 then 0xFFFF else 0
  }

  lemma {:induction false} OtherWordDecodes(v: TagValue, bs: seq<Byte>, bitOffset: Byte, dates: DateRange)
    requires bitOffset < 16 && Narrow(v) && WordAt(bs, 0) == SpoilingWord(v)
    ensures DecodeModbus(v.DataType(), bs, bitOffset, dates) != Ok(v)
  {
    var w := WordAt(bs, 0);
    match v
    case Bool(b) =>
      BitOfConstants(bitOffset);
      assert DecodeModbus(BoolType, bs, bitOffset, dates) == Ok(Bool(Bit(w, bitOffset)));
    case Int16(x) => assert DecodeModbus(Int16Type, bs, bitOffset, dates) == Ok(Int16(Signed(w, 0x1_0000)));
    case UInt16(x) => assert DecodeModbus(UInt16Type, bs, bitOffset, dates) == Ok(UInt16(w));
  }

  lemma {:induction false} BitOfConstants(b: nat)
    requires b < 16
    ensures Bit(0xFFFF, b) && !Bit(0, b) && (b > 0 ==> !Bit(1, b))
  {
    BitOfOnes(16, b);
    ZeroHasNoBits(b);
    if b > 0 {
      ZeroHasNoBits(b - 1);
    }
  }

  function Ones(n: nat): nat
  {
    if n == 0 then 0 else 2 * Ones(n - 1) + 1
  }

  lemma {:induction false} BitOfOnes(n: nat, b: nat)
    requires b < n
    ensures Bit(Ones(n), b)
    ensures n == 16 ==> Ones(n) == 0xFFFF
  {
    if b > 0 {
      BitOfOnes(n - 1, b - 1);
    }
    if n == 16 {
      assert Ones(4) == 15;
      assert Ones(8) == 16 * Ones(4) + 15;
      assert Ones(12) == 16 * Ones(8) + 15;
      assert Ones(16) == 16 * Ones(12) + 15;
    }
  }

  /** Bytes of a buffer that are not NUL. */
  function Visible(s: seq<Byte>): nat
  {
    |s| - multiset(s)[0]
  }

  /** A text followed by letters is published longer than it was, and one that ends in NULs shorter. */
  lemma {:induction false} SpoiledText(t: seq<Byte>, order: WordOrder, spare: nat, bitOffset: Byte, dates: DateRange) returns (rest: seq<Word>)
    requires Utf8.Valid(t)
    requires spare > 0 || !KeepsNuls(t)
    ensures |rest| == spare && ReadAs(StringType, BytesOnWire(t, order) + rest, order, bitOffset, dates) != Ok(String(t))
  {
    rest := Letters(spare);
    var ws := BytesOnWire(t, order) + rest;
    TextRead(ws, order, bitOffset, dates);
    if spare > 0 {
      VisibleFetched(t, order, spare);
      PublishedShowsAll(Fetched(ws, order));
    } else {
      FilledByBytes(t, order);
      NulsAreLost(t, Fetched(ws, order));
    }
  }

  lemma {:induction false} TextRead(ws: seq<Word>, order: WordOrder, bitOffset: Byte, dates: DateRange)
    ensures ReadAs(StringType, ws, order, bitOffset, dates) == Ok(String(Utf8.Published(Fetched(ws, order))))
  {
  }

  function Letters(n: nat): (ws: seq<Word>)
    ensures |ws| == n
  {
    seq(n, i => 0x4141)
  }

  lemma {:induction false} LetterBytes(n: nat)
    ensures Visible(ToBytes(Letters(n))) == 2 * n
  {
    OnlyLetters(n);
    assert 0 !in ToBytes(Letters(n));
  }

  lemma {:induction false} OnlyLetters(n: nat)
    ensures forall x :: x in ToBytes(Letters(n)) ==> x == 0x41
  {
    if n > 0 {
      OnlyLetters(n - 1);
      assert Letters(n)[1..] == Letters(n - 1);
    }
  }

  lemma {:induction false} NulsAreLost(t: seq<Byte>, bs: seq<Byte>)
    requires Utf8.Valid(t) && !KeepsNuls(t) && bs == Pad(t)
    ensures Utf8.Published(bs) != t
  {
    Utf8.PaddedValid(t, bs);
    Utf8.TrimmedNuls(bs);
    assert Utf8.Published(bs) == Utf8.TrimNul(bs);
  }

  lemma {:induction false} VisibleFetched(t: seq<Byte>, order: WordOrder, spare: nat)
    requires spare > 0
    ensures var bs := Fetched(BytesOnWire(t, order) + Letters(spare), order);
            Visible(bs) > Visible(t) && |bs| > |t|
  {
    var ws := OnWire(ToWords(Pad(t)), order);
    var stored, more := ToBytes(ws), ToBytes(Letters(spare));
    BytesOfConcat(ws, Letters(spare));
    VisibleReordered(order, stored + more);
    VisibleConcat(stored, more);
    VisibleStored(t, order);
    LetterBytes(spare);
  }

  lemma {:induction false} VisibleConcat(a: seq<Byte>, b: seq<Byte>)
    ensures Visible(a + b) == Visible(a) + Visible(b)
  {
    SplitMultiset(a + b, a, b);
  }

  lemma {:induction false} VisibleReordered(order: WordOrder, bs: seq<Byte>)
    ensures Visible(Reordered(order, bs)) == Visible(bs)
  {
    ReorderingPermutes(order, bs);
  }

  lemma {:induction false} VisibleStored(t: seq<Byte>, order: WordOrder)
    ensures Visible(ToBytes(OnWire(ToWords(Pad(t)), order))) == Visible(t)
  {
    var ws := ToWords(Pad(t));
    WireBytes(ws, order);
    VisibleReordered(order, ToBytes(ws));
    BytesSurviveWords(Pad(t));
    VisiblePad(t);
  }

  lemma {:induction false} VisiblePad(s: seq<Byte>)
    ensures Visible(Pad(s)) == Visible(s)
  {
  }

  lemma {:induction false} PublishedShowsAll(bs: seq<Byte>)
    ensures Visible(Utf8.Published(bs)) == Visible(bs) || |Utf8.Published(bs)| == 2 * |bs|
  {
    VisibleTrim(bs);
  }

  lemma {:induction false} VisibleTrim(s: seq<Byte>)
    ensures Visible(Utf8.TrimNul(s)) == Visible(s)
  {
    if s != [] && s[|s| - 1] == 0 {
      VisibleTrim(s[..|s| - 1]);
      assert s == s[..|s| - 1] + [0];
    }
  }
}
