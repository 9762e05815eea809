/** What the bytes of a value are, in numbers: the standard layout, and what each order makes of it. */
module Layouts {
  import opened Words
  import opened WordOrders
  import opened TagModel
  import opened Codec
  import opened Mappings
  import opened CoilPacking
  import opened RoundTrip
  import opened Scatter
  import Utf8

  // ----- big-endian numbers -----

  function Big2(b: seq<Byte>): nat
    requires |b| == 2
  {
    0x100 * (b[0] as int) + b[1] as int
  }

  function Big4(b: seq<Byte>): nat
    requires |b| == 4
  {
    0x100_0000 * (b[0] as int) + 0x1_0000 * (b[1] as int) + 0x100 * (b[2] as int) + b[3] as int
  }

  function Big8(b: seq<Byte>): nat
    requires |b| == 8
  {
    0x1_0000_0000 * Big4(b[..4]) + Big4(b[4..])
  }

  // ----- the standard layout of a value -----

  lemma {:induction false} BytesOfOne(w: Word)
    ensures ToBytes([w]) == [w / 0x100, w % 0x100] && Big2(ToBytes([w])) == w
  {
    assert [w][1..] == [];
  }

  lemma {:induction false} BytesOfTwo(a: Word, b: Word)
    ensures ToBytes([a, b]) == [a / 0x100, a % 0x100, b / 0x100, b % 0x100] && Big4(ToBytes([a, b])) == 0x1_0000 * (a as int) + b as int
  {
    BytesOfOne(b);
    assert [a, b][1..] == [b];
  }

  lemma {:induction false} BytesOfFour(a: Word, b: Word, c: Word, d: Word)
    ensures Big8(ToBytes([a, b, c, d])) ==
            0x1_0000_0000_0000 * (a as int) + 0x1_0000_0000 * (b as int) + 0x1_0000 * (c as int) + d as int
  {
    var ws := [a, b, c, d];
    BytesOfTwo(a, b);
    BytesOfTwo(c, d);
    BytesOfCut(ws, 2);
    assert ws[..2] == [a, b] && ws[2..] == [c, d];
  }

  lemma {:induction false} BytesOf32(x: U32)
    ensures var b := ToBytes(U32ToWords(x)); |b| == 4 && Big4(b) == x
  {
    BytesOfTwo(x / 0x1_0000, x % 0x1_0000);
  }

  lemma {:induction false} BytesOf64(x: U64)
    ensures var b := ToBytes(U64ToWords(x)); |b| == 8 && Big8(b) == x
  {
    var w := U64ToWords(x);
    Join64OfWords(x);
    BytesOfFour(w[0], w[1], w[2], w[3]);
  }

  /** A signed integer on as many values, as an unsigned one. */
  function Complement(x: int, values: int): int
  {
    if x < 0 then values + x else x
  }

  /** What both drivers write for a value in standard order: numbers big-endian and in two's complement, texts padded to words. */
  lemma {:induction false} EncodedInBytes(v: TagValue)
    ensures var b := ToBytes(Encode(v));
            match v
            case Bool(x) => b == [0, if x then 1 else 0]
            case Int16(x) => |b| == 2 && Big2(b) == Complement(x, 0x1_0000)
            case UInt16(x) => |b| == 2 && Big2(b) == x
            case Int32(x) => |b| == 4 && Big4(b) == Complement(x, 0x1_0000_0000)
            case UInt32(x) => |b| == 4 && Big4(b) == x
            case Float(bits) => |b| == 4 && Big4(b) == bits
            case Int64(x) => |b| == 8 && Big8(b) == Complement(x, 0x1_0000_0000_0000_0000)
            case UInt64(x) => |b| == 8 && Big8(b) == x
            case Double(bits) => |b| == 8 && Big8(b) == bits
            case DateTime(ms) => |b| == 8 && Big8(b) == Complement(ms, 0x1_0000_0000_0000_0000)
            case String(s) => b == if |s| % 2 == 0 then s else s + [0]
            case ByteString(s) => b == if |s| % 2 == 0 then s else s + [0]
  {
    match v
    case Bool(x) => BytesOfOne(if x then 1 else 0);
    case Int16(x) => BytesOfOne(Unsigned(x, 0x1_0000));
    case UInt16(x) => BytesOfOne(x);
    case Int32(x) => BytesOf32(Unsigned(x, 0x1_0000_0000));
    case UInt32(x) => BytesOf32(x);
    case Float(bits) => BytesOf32(bits);
    case Int64(x) => BytesOf64(Unsigned(x, 0x1_0000_0000_0000_0000));
    case UInt64(x) => BytesOf64(x);
    case Double(bits) => BytesOf64(bits);
    case DateTime(ms) => BytesOf64(Unsigned(ms, 0x1_0000_0000_0000_0000));
    case String(s) => BytesSurviveWords(Pad(s));
    case ByteString(s) => BytesSurviveWords(Pad(s));
  }

  // ----- what a decoder makes of bytes -----

  /** The buffer's whole words with eight zero bytes behind. */
  function ZeroFilled(bytes: seq<Byte>): (b: seq<Byte>)
    ensures |b| >= 8
  {
    bytes[..|bytes| - |bytes| % 2] + [0, 0, 0, 0, 0, 0, 0, 0]
  }

  /** An unsigned integer below twice `half`, as a signed one. */
  function Recomplement(x: int, half: int): int
  {
    if x >= half then x - 2 * half else x
  }

  lemma {:induction false} WordOfFilled(bytes: seq<Byte>, k: nat)
    requires k < 4
    ensures WordAt(bytes, k) == 0x100 * (ZeroFilled(bytes)[2 * k] as int) + ZeroFilled(bytes)[2 * k + 1] as int
  {
  }

  lemma {:induction false} FirstNumbers(bytes: seq<Byte>)
    ensures WordAt(bytes, 0) == Big2(ZeroFilled(bytes)[..2])
    ensures First32(bytes) == Big4(ZeroFilled(bytes)[..4])
    ensures First64(bytes) == Big8(ZeroFilled(bytes)[..8])
  {
    WordOfFilled(bytes, 0);
    WordOfFilled(bytes, 1);
    WordOfFilled(bytes, 2);
    WordOfFilled(bytes, 3);
  }

  /** Bit `k` in numbers. */
  lemma {:induction false} BitIsQuotient(w: nat, k: nat)
    ensures Pow2(k) > 0 && (Bit(w, k) <==> w / Pow2(k) % 2 == 1)
  {
    if k > 0 {
      BitIsQuotient(w / 2, k - 1);
      DivideTwice(w, Pow2(k - 1));
    }
  }

  lemma {:induction false} DivideTwice(w: nat, p: nat)
    requires p > 0
    ensures w / 2 / p == w / (2 * p)
  {
    var q, r := w / 2 / p, w / 2 % p;
    assert w / 2 == q * p + r;
    assert w == (2 * p) * q + (2 * r + w % 2) && 0 <= 2 * r + w % 2 < 2 * p;
    QuotientIs(w, 2 * p, q, 2 * r + w % 2);
  }

  lemma {:induction false} QuotientIs(w: nat, d: nat, q: nat, r: nat)
    requires w == d * q + r && r < d
    ensures w / d == q
  {
    var p := w / d;
    assert w == d * p + w % d;
    if p < q {
      NextMultiple(d, p, q);
    } else if p > q {
      NextMultiple(d, q, p);
    }
  }

  lemma {:induction false} NextMultiple(d: nat, p: nat, q: nat)
    requires p < q
    ensures d * p + d <= d * q
  {
    assert d * q == d * (p + 1) + d * (q - p - 1);
  }

  lemma {:induction false} OneWordNumbers(bytes: seq<Byte>, k: Byte, dates: DateRange, x: Word)
    requires WordAt(bytes, 0) == x
    ensures DecodeModbus(BoolType, bytes, k, dates) == Ok(Bool(Bit(x, k)))
    ensures DecodeModbus(Int16Type, bytes, k, dates) == Ok(Int16(Recomplement(x, 0x8000)))
    ensures DecodeModbus(UInt16Type, bytes, k, dates) == Ok(UInt16(x))
  {
  }

  lemma {:induction false} TwoWordNumbers(bytes: seq<Byte>, k: Byte, dates: DateRange, x: U32)
    requires First32(bytes) == x
    ensures DecodeModbus(Int32Type, bytes, k, dates) == Ok(Int32(Recomplement(x, 0x8000_0000)))
    ensures DecodeModbus(UInt32Type, bytes, k, dates) == Ok(UInt32(x))
    ensures DecodeModbus(FloatType, bytes, k, dates) == Ok(Float(x))
  {
  }

  lemma {:induction false} FourWordNumbers(bytes: seq<Byte>, k: Byte, dates: DateRange, x: U64)
    requires First64(bytes) == x
    ensures DecodeModbus(UInt64Type, bytes, k, dates) == Ok(UInt64(x))
    ensures DecodeModbus(DoubleType, bytes, k, dates) == Ok(Double(x))
  {
  }

  lemma {:induction false} SignedNumber(bytes: seq<Byte>, k: Byte, dates: DateRange, x: U64)
    requires First64(bytes) == x
    ensures DecodeModbus(Int64Type, bytes, k, dates) == Ok(Int64(Recomplement(x, 0x8000_0000_0000_0000)))
  {
  }

  lemma {:induction false} DateNumber(bytes: seq<Byte>, k: Byte, dates: DateRange, x: U64)
    requires First64(bytes) == x
    ensures DecodeModbus(DateTimeType, bytes, k, dates) ==
            if |bytes| < 8 then Err(InvalidDateTime)
            else
              var ms := Recomplement(x, 0x8000_0000_0000_0000);
              Ok(DateTime(if ms < dates.first || dates.last < ms then 0 else ms))
  {
  }

  /** The Modbus driver's decoder, from the bytes in standard order. */
  lemma {:induction false} DecodedInBytes(t: TagDataType, bytes: seq<Byte>, k: Byte, dates: DateRange)
    ensures Pow2(k) > 0
    ensures var b := ZeroFilled(bytes);
            var two, four, eight := Big2(b[..2]), Big4(b[..4]), Big8(b[..8]);
            && two <= 0xFFFF && four <= 0xFFFF_FFFF && eight <= 0xFFFF_FFFF_FFFF_FFFF
            && DecodeModbus(t, bytes, k, dates) ==
               match t
               case BoolType => Ok(Bool(two / Pow2(k) % 2 == 1))
               case Int16Type => Ok(Int16(Recomplement(two, 0x8000)))
               case UInt16Type => Ok(UInt16(two))
               case Int32Type => Ok(Int32(Recomplement(four, 0x8000_0000)))
               case UInt32Type => Ok(UInt32(four))
               case FloatType => Ok(Float(four))
               case Int64Type => Ok(Int64(Recomplement(eight, 0x8000_0000_0000_0000)))
               case UInt64Type => Ok(UInt64(eight))
               case DoubleType => Ok(Double(eight))
               case DateTimeType =>
                 if |bytes| < 8 then Err(InvalidDateTime)
                 else
                   var ms := Recomplement(eight, 0x8000_0000_0000_0000);
                   Ok(DateTime(if ms < dates.first || dates.last < ms then 0 else ms))
               case StringType => Ok(String(Utf8.Published(bytes)))
               case ByteStringType => Ok(ByteString(bytes))
  {
    var b := ZeroFilled(bytes);
    FirstNumbers(bytes);
    BitIsQuotient(WordAt(bytes, 0), k);
    OneWordNumbers(bytes, k, dates, Big2(b[..2]));
    TwoWordNumbers(bytes, k, dates, Big4(b[..4]));
    FourWordNumbers(bytes, k, dates, Big8(b[..8]));
    SignedNumber(bytes, k, dates, Big8(b[..8]));
    DateNumber(bytes, k, dates, Big8(b[..8]));
  }

  /** Bytes the FINS driver asks for. */
  function Needed(t: TagDataType): nat
  {
    match t
    case BoolType => 2
    case Int16Type => 2
    case UInt16Type => 2
    case Int32Type => 4
    case UInt32Type => 4
    case FloatType => 4
    case Int64Type => 8
    case UInt64Type => 8
    case DoubleType => 8
    case DateTimeType => 8
    case StringType => 0
    case ByteStringType => 0
  }

  /** The FINS driver's decoder: its errors, and as the Modbus driver otherwise; its dates are unsigned. */
  lemma {:induction false} DecodedByFins(t: TagDataType, bytes: seq<Byte>, k: Byte, dates: DateRange)
    requires dates.Valid()
    ensures DecodeFins(t, bytes, k, dates) ==
            if |bytes| < Needed(t) then Err(if t == DateTimeType then InvalidDateTime else NotEnoughData)
            else if t == DateTimeType then
              (if Big8(bytes[..8]) <= dates.last then Ok(DateTime(Big8(bytes[..8]))) else Err(DatePanics))
            else DecodeModbus(t, bytes, k, dates)
  {
    DecodersAgree(t, bytes, k, dates);
    if |bytes| >= 8 {
      FirstNumbers(bytes);
      Be64IsFirst64(bytes);
      assert ZeroFilled(bytes)[..8] == bytes[..8];
    }
  }

  // ----- the four orders -----

  /** The place that byte `r` of chunk `q` of a reordered buffer of `n` bytes comes from; the last chunk may be shorter. */
  function From(order: WordOrder, q: nat, r: nat, n: nat): nat
    requires r < 4 && 4 * q + r < n
  {
    var i, whole := 4 * q + r, 4 * q + 4 <= n;
    match order
    case ABCD => i
    case BADC => if r == 1 || r == 3 then i - 1 else if i + 1 < n then i + 1 else i
    case CDAB => if !whole then i else if r < 2 then i + 2 else i - 2
    case DCBA => if whole then 4 * q + 3 - r else if r == 0 && i + 1 < n then i + 1 else if r == 1 then i - 1 else i
  }

  lemma {:induction false} OrderedInBytes(order: WordOrder, bytes: seq<Byte>, q: nat, r: nat)
    requires r < 4 && 4 * q + r < |bytes|
    ensures From(order, q, r, |bytes|) < |bytes| && Reordered(order, bytes)[4 * q + r] == bytes[From(order, q, r, |bytes|)]
    decreases q
  {
    if q > 0 {
      OrderedInBytes(order, bytes[4..], q - 1, r);
      SecondPart(Chunk(order, bytes[..4]), Reordered(order, bytes[4..]), 4 * q + r);
    } else if |bytes| >= 4 {
      SecondPart(Chunk(order, bytes[..4]), Reordered(order, bytes[4..]), r);
      ChunkInBytes(order, bytes[..4], r);
    } else {
      TailInBytes(order, bytes, r);
    }
  }

  lemma {:induction false} ChunkInBytes(order: WordOrder, c: seq<Byte>, r: nat)
    requires |c| == 4 && r < 4
    ensures Chunk(order, c)[r] == c[From(order, 0, r, 4)]
  {
  }

  lemma {:induction false} TailInBytes(order: WordOrder, t: seq<Byte>, r: nat)
    requires r < |t| < 4
    ensures From(order, 0, r, |t|) < |t| && Tail(order, t)[r] == t[From(order, 0, r, |t|)]
  {
  }

  lemma {:induction false} SecondPart(a: seq<Byte>, b: seq<Byte>, i: nat)
    requires i < |a| + |b|
    ensures (a + b)[i] == if i < |a| then a[i] else b[i - |a|]
  {
  }

  /** Four bytes in an order, as the number they stand for. */
  function Big4In(order: WordOrder, b: seq<Byte>): nat
    requires |b| == 4
  {
    match order
    case ABCD => Big4([b[0], b[1], b[2], b[3]])
    case BADC => Big4([b[1], b[0], b[3], b[2]])
    case CDAB => Big4([b[2], b[3], b[0], b[1]])
    case DCBA => Big4([b[3], b[2], b[1], b[0]])
  }

  /** A 32-bit number read under an order is the one its bytes stand for, and is written as those bytes. */
  lemma {:induction false} NumberInOrder(style: Style, m: Mapping, bytes: seq<Byte>, dates: DateRange, x: U32)
    requires dates.Valid() && |bytes| == 4 && m.dataType == UInt32Type
    ensures DecodeAs(style, m, bytes, dates) == Ok(UInt32(Big4In(m.order, bytes)))
    ensures var b := ToBytes(Stored(UInt32(x), m.order)); |b| == 4 && Big4In(m.order, b) == x
  {
    ChunkIsAll(m.order, bytes);
    DecodedByFins(UInt32Type, Reordered(m.order, bytes), m.bitOffset, dates);
    DecodedInBytes(UInt32Type, Reordered(m.order, bytes), m.bitOffset, dates);
    BytesOf32(x);
    var std := ToBytes(U32ToWords(x));
    ChunkIsAll(m.order, std);
    BytesSurviveWords(Reordered(m.order, std));
  }

  lemma {:induction false} ChunkIsAll(order: WordOrder, b: seq<Byte>)
    requires |b| == 4
    ensures Reordered(order, b) == Chunk(order, b)
    ensures Big4(Reordered(order, b)) == Big4In(order, b) && ZeroFilled(Reordered(order, b))[..4] == Reordered(order, b)
    ensures Big4In(order, Reordered(order, b)) == Big4(b)
  {
    assert b[..4] == b && b[4..] == [];
  }
}
