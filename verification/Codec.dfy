/** Typed values to and from big-endian words, as the two drivers convert them. */
module Codec {
  import opened Words
  import opened TagModel
  import Utf8

  /** Milliseconds the date library can represent: 1970 and, if nothing more, the 49 days that 32 bits count. */
  datatype DateRange = DateRange(first: I64, last: I64)
  {
    predicate Valid()
    {
      first <= 0 && 0xFFFF_FFFF <= last
    }
  }

  datatype DecodeError = NotEnoughData | InvalidDateTime | DatePanics

  type Decoded = Result<TagValue, DecodeError>

  // ----- encoding -----

  /** The words a value is written as, most significant word first. */
  function Encode(v: TagValue): (ws: seq<Word>)
    ensures Width(v.DataType()) > 0 ==> |ws| == Width(v.DataType())
  {
    match v
    case Bool(b) => [if b then 1 else 0]
    case Int16(x) => [Unsigned(x, 0x1_0000)]
    case UInt16(x) => [x]
    case Int32(x) => U32ToWords(Unsigned(x, 0x1_0000_0000))
    case UInt32(x) => U32ToWords(x)
    case Int64(x) => U64ToWords(Unsigned(x, 0x1_0000_0000_0000_0000))
    case UInt64(x) => U64ToWords(x)
    case Float(bits) => U32ToWords(bits)
    case Double(bits) => U64ToWords(bits)
    case DateTime(ms) => U64ToWords(Unsigned(ms, 0x1_0000_0000_0000_0000))
    case ByteString(b) => ToWords(Pad(b))
    case String(s) => ToWords(Pad(s))
  }

  /** Words a value of the type takes; texts and byte strings have no fixed width. */
  function Width(t: TagDataType): nat
  {
    match t
    case BoolType => 1
    case Int16Type => 1
    case UInt16Type => 1
    case Int32Type => 2
    case UInt32Type => 2
    case FloatType => 2
    case Int64Type => 4
    case UInt64Type => 4
    case DoubleType => 4
    case DateTimeType => 4
    case StringType => 0
    case ByteStringType => 0
  }

  /** The FINS driver's padding and cursor loop over a byte vector. */
  method FinsBytesToWords(bytes: seq<Byte>) returns (words: seq<Word>)
    ensures words == ToWords(Pad(bytes))
  {
    var b := bytes;
    if |b| % 2 != 0 {
      b := b + [0];
    }
    words := ReadWords(b);
  }

  /** Read big-endian words off a cursor until fewer than two bytes are left. */
  method ReadWords(b: seq<Byte>) returns (words: seq<Word>)
    ensures words == ToWords(b)
  {
    words := [];
    var pos := 0;
    while pos + 2 <= |b|
      invariant pos <= |b|
      invariant words + ToWords(b[pos..]) == ToWords(b)
    {
      assert b[pos..][2..] == b[pos + 2..];
      words := words + [JoinBytes(b[pos], b[pos + 1])];
      pos := pos + 2;
    }
  }

  /** Split words into bytes, high byte first (`registers_to_bytes`, and both write paths). */
  method RegistersToBytes(registers: seq<Word>) returns (b: seq<Byte>)
    ensures b == ToBytes(registers)
  {
    b := [];
    for i := 0 to |registers|
      invariant b + ToBytes(registers[i..]) == ToBytes(registers)
    {
      assert registers[i..][1..] == registers[i + 1..];
      b := b + [registers[i] / 256] + [registers[i] % 256];
    }
  }

  /** The Modbus driver's padding and two-byte chunk loop over a byte vector. */
  method ModbusBytesToWords(bytes: seq<Byte>) returns (regs: seq<Word>)
    ensures regs == ToWords(Pad(bytes))
  {
    var padded := bytes;
    if |padded| % 2 != 0 {
      padded := padded + [0];
    }
    regs := [];
    for i := 0 to |padded| / 2
      invariant regs + ToWords(padded[2 * i..]) == ToWords(padded)
    {
      assert padded[2 * i..][2..] == padded[2 * (i + 1)..];
      regs := regs + [JoinBytes(padded[2 * i], padded[2 * i + 1])];
    }
  }

  /** The FINS driver's conversion of a value to standard words. */
  method TagValueToWordsStandard(v: TagValue) returns (words: seq<Word>)
    ensures words == Encode(v)
  {
    match v
    case Bool(b) => words := [if b then 1 else 0];
    case UInt16(x) => words := [x];
    case Int16(x) => words := [Unsigned(x, 0x1_0000)];
    case UInt32(x) => words := U32ToWords(x);
    case Int32(x) => words := U32ToWords(Unsigned(x, 0x1_0000_0000));
    case Float(bits) => words := U32ToWords(bits);
    case Double(bits) => words := U64ToWords(bits);
    case UInt64(x) => words := U64ToWords(x);
    case Int64(x) => words := U64ToWords(Unsigned(x, 0x1_0000_0000_0000_0000));
    case DateTime(ms) => words := U64ToWords(Unsigned(ms, 0x1_0000_0000_0000_0000));
    case ByteString(b) => words := FinsBytesToWords(b);
    case String(s) => words := FinsBytesToWords(s);
  }

  /** The Modbus driver's conversion of a value to registers; it equals the FINS one on every value. */
  method TagValueToRegisters(v: TagValue) returns (regs: seq<Word>)
    ensures regs == Encode(v)
  {
    match v
    case Bool(b) => regs := [if b then 1 else 0];
    case UInt16(x) => regs := [x];
    case Int16(x) => regs := [Unsigned(x, 0x1_0000)];
    case UInt32(x) => regs := [(x / 0x1_0000) % 0x1_0000, x % 0x1_0000];
    case Int32(x) =>
      var ux: U32 := Unsigned(x, 0x1_0000_0000);
      regs := [(ux / 0x1_0000) % 0x1_0000, ux % 0x1_0000];
    case Float(bits) => regs := [(bits / 0x1_0000) % 0x1_0000, bits % 0x1_0000];
    case Double(bits) => regs := U64ToWords(bits);
    case UInt64(x) => regs := U64ToWords(x);
    case Int64(x) => regs := U64ToWords(Unsigned(x, 0x1_0000_0000_0000_0000));
    case DateTime(ms) => regs := U64ToWords(Unsigned(ms, 0x1_0000_0000_0000_0000));
    case ByteString(b) => regs := ModbusBytesToWords(b);
    case String(s) => regs := ModbusBytesToWords(s);
  }

  // ----- decoding -----

  /** Word `k` of a byte buffer, 0 when the buffer ends before it (`read_u16().unwrap_or(0)`). */
  function WordAt(bytes: seq<Byte>, k: nat): Word
  {
    if 2 * k + 1 < |bytes| then JoinBytes(bytes[2 * k], bytes[2 * k + 1]) else 0
  }

  function First32(bytes: seq<Byte>): U32
  {
    Join32(WordAt(bytes, 0), WordAt(bytes, 1))
  }

  function First64(bytes: seq<Byte>): U64
  {
    Join64(WordAt(bytes, 0), WordAt(bytes, 1), WordAt(bytes, 2), WordAt(bytes, 3))
  }

  /**
   * The Modbus driver's decoder: missing words read as zero, a date out of range as 1970.
   * Fewer than eight bytes cannot hold an RFC 3339 date, so the textual fallback always fails.
   */
  function DecodeModbus(t: TagDataType, bytes: seq<Byte>, bitOffset: Byte, dates: DateRange): (r: Decoded)
  {
    match t
    case BoolType => Ok(Bool(Bit(WordAt(bytes, 0), bitOffset)))
    case UInt16Type => Ok(UInt16(WordAt(bytes, 0)))
    case Int16Type => Ok(Int16(Signed(WordAt(bytes, 0), 0x1_0000)))
    case UInt32Type => Ok(UInt32(First32(bytes)))
    case Int32Type => Ok(Int32(Signed(First32(bytes), 0x1_0000_0000)))
    case FloatType => Ok(Float(First32(bytes)))
    case DoubleType => Ok(Double(First64(bytes)))
    case Int64Type => Ok(Int64(Signed(First64(bytes), 0x1_0000_0000_0000_0000)))
    case UInt64Type => Ok(UInt64(First64(bytes)))
    case DateTimeType =>
      if |bytes| < 8 then Err(InvalidDateTime)
      else
        var ms := Signed(First64(bytes), 0x1_0000_0000_0000_0000);
        Ok(DateTime(if dates.first <= ms <= dates.last then ms else 0))
    case ByteStringType => Ok(ByteString(bytes))
    case StringType => Ok(String(Utf8.Published(bytes)))
  }

  /**
   * The FINS driver's decoder: a fixed-width type needs all its bytes. A date behind the library's last
   * one is no error of the code's: its conversion from system time panics.
   */
  function DecodeFins(t: TagDataType, bytes: seq<Byte>, bitOffset: Byte, dates: DateRange): (r: Decoded)
  {
    if |bytes| < 2 * Width(t) then Err(if t == DateTimeType then InvalidDateTime else NotEnoughData)
    else
      match t
      case BoolType => Ok(Bool(Bit(JoinBytes(bytes[0], bytes[1]), bitOffset)))
      case UInt16Type => Ok(UInt16(JoinBytes(bytes[0], bytes[1])))
      case Int16Type => Ok(Int16(Signed(JoinBytes(bytes[0], bytes[1]), 0x1_0000)))
      case UInt32Type => Ok(UInt32(Be32(bytes[..4])))
      case Int32Type => Ok(Int32(Signed(Be32(bytes[..4]), 0x1_0000_0000)))
      case FloatType => Ok(Float(Be32(bytes[..4])))
      case DoubleType => Ok(Double(Be64(bytes[..8])))
      case UInt64Type => Ok(UInt64(Be64(bytes[..8])))
      case Int64Type => Ok(Int64(Signed(Be64(bytes[..8]), 0x1_0000_0000_0000_0000)))
      case DateTimeType =>
        var ms := Be64(bytes[..8]);
        if ms <= dates.last then Ok(DateTime(ms)) else Err(DatePanics)
      case ByteStringType => Ok(ByteString(bytes))
      case StringType => Ok(String(Utf8.Published(bytes)))
  }

  /** Big-endian u64 of eight bytes. */
  function Be64(b: seq<Byte>): U64
    requires |b| == 8
  {
    (Be32(b[..4]) as int) * 0x1_0000_0000 + Be32(b[4..]) as int
  }

  lemma {:induction false} Be64IsFirst64(bytes: seq<Byte>)
    requires |bytes| >= 8
    ensures Be64(bytes[..8]) == First64(bytes)
  {
    var b := bytes[..8];
    assert b[..4] == [bytes[0], bytes[1], bytes[2], bytes[3]];
    assert b[4..] == [bytes[4], bytes[5], bytes[6], bytes[7]];
  }

  lemma {:induction false} Be32IsFirst32(bytes: seq<Byte>)
    requires |bytes| >= 4
    ensures Be32(bytes[..4]) == First32(bytes)
  {
    assert bytes[..4] == [bytes[0], bytes[1], bytes[2], bytes[3]];
  }

  /**
   * The two drivers decode alike exactly when FINS accepts the buffer: short buffers are errors for
   * FINS and zero-filled for Modbus; a date before 1970 or out of range is decoded differently.
   */
  lemma {:induction false} DecodersAgree(t: TagDataType, bytes: seq<Byte>, bitOffset: Byte, dates: DateRange)
    requires dates.Valid()
    ensures DecodeFins(t, bytes, bitOffset, dates) == DecodeModbus(t, bytes, bitOffset, dates) <==>
            (if t == DateTimeType then |bytes| < 8 || First64(bytes) <= dates.last else |bytes| >= 2 * Width(t))
  {
    if |bytes| >= 4 {
      Be32IsFirst32(bytes);
    }
    if |bytes| >= 8 {
      Be64IsFirst64(bytes);
    }
  }

  lemma {:induction false} DecodedType(t: TagDataType, bytes: seq<Byte>, bitOffset: Byte, dates: DateRange)
    ensures var r := DecodeModbus(t, bytes, bitOffset, dates); r.Ok? ==> r.value.DataType() == t
    ensures var r := DecodeFins(t, bytes, bitOffset, dates); r.Ok? ==> r.value.DataType() == t
  {
  }
}
