/** Tag values, their types and qualities, and the runtime state of a tag. */
module TagModel {
  import opened Words

  datatype TagDataType =
    | BoolType | Int16Type | UInt16Type | Int32Type | UInt32Type | Int64Type | UInt64Type
    | FloatType | DoubleType | StringType | DateTimeType | ByteStringType

  /**
   * Floats are their bit patterns, a date is its milliseconds since 1970, a string its UTF-8 bytes
   * (`Utf8.Valid` in every value the program can hold). */
  datatype TagValue =
    | Bool(bit: bool)
    | Int16(i16: I16)
    | UInt16(u16: Word)
    | Int32(i32: I32)
    | UInt32(u32: U32)
    | Int64(i64: I64)
    | UInt64(u64: U64)
    | Float(bits32: U32)
    | Double(bits64: U64)
    | String(text: seq<Byte>)
    | DateTime(millis: I64)
    | ByteString(bytes: seq<Byte>)
  {
    function DataType(): TagDataType
    {
      match this
      case Bool(_) => BoolType
      case Int16(_) => Int16Type
      case UInt16(_) => UInt16Type
      case Int32(_) => Int32Type
      case UInt32(_) => UInt32Type
      case Int64(_) => Int64Type
      case UInt64(_) => UInt64Type
      case Float(_) => FloatType
      case Double(_) => DoubleType
      case String(_) => StringType
      case DateTime(_) => DateTimeType
      case ByteString(_) => ByteStringType
    }

    predicate Matches(expected: TagDataType)
    {
      DataType() == expected
    }
  }

  datatype ErrorReason =
    | ShortPayload
    | DecodeFailed
    | EndCode(code: Word)
    | ParseFailed

  datatype TagQuality =
    | Good | Initializing | Stale | CommLost | ConfigError | TypeMismatch | Substitute
    | Error(reason: ErrorReason)

  type Timestamp = int

  datatype Tag = Tag(value: TagValue, quality: TagQuality, sourceTimestamp: Timestamp, serverTimestamp: Timestamp)
  {
    function ApplyRead(v: TagValue, q: TagQuality, sourceTs: Timestamp, now: Timestamp): Tag
    {
      Tag(v, q, sourceTs, now)
    }

    function SetQuality(q: TagQuality, now: Timestamp): Tag
    {
      this.(quality := q, serverTimestamp := now)
    }
  }

  datatype Result<+T, +E> = Ok(value: T) | Err(error: E)
}
