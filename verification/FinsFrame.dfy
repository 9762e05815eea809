/** FINS/TCP framing, FINS command and response frames, memory read and write blocks. */
module FinsFrames {
  import opened Words
  import opened TagModel

  // ----- numbers on the wire -----

  /** The `n` low bytes of a number, highest first. */
  function Digits(v: nat, n: nat): (b: seq<Byte>)
    ensures |b| == n
  {
    if n == 0 then [] else Digits(v / 0x100, n - 1) + [v % 0x100]
  }

  /** The number of a big-endian byte string. */
  function Number(b: seq<Byte>): nat
  {
    if b == [] then 0 else 0x100 * Number(b[..|b| - 1]) + b[|b| - 1] as int
  }

  function Pow256(n: nat): nat
  {
    if n == 0 then 1 else 0x100 * Pow256(n - 1)
  }

  /** The low bytes hold the number's residue. */
  lemma {:induction false} DigitsAreResidue(v: nat, n: nat) returns (q: nat)
    ensures v == q * Pow256(n) + Number(Digits(v, n)) && Number(Digits(v, n)) < Pow256(n)
  {
    if n == 0 {
      q := v;
    } else {
      q := DigitsAreResidue(v / 0x100, n - 1);
      var low := Digits(v / 0x100, n - 1);
      assert (low + [v % 0x100])[..n - 1] == low;
      Shifted256(v, q, Pow256(n - 1), Number(low));
    }
  }

  lemma {:induction false} Shifted256(v: nat, q: nat, p: nat, r: nat)
    requires v / 0x100 == q * p + r
    ensures v == q * (0x100 * p) + (0x100 * r + v % 0x100)
  {
    assert v == 0x100 * (q * p + r) + v % 0x100;
    assert 0x100 * (q * p) == q * (0x100 * p);
  }

  lemma {:induction false} FourDigits(v: nat)
    requires v < 0x1_0000_0000
    ensures Number(Digits(v, 4)) == v
  {
    var q := DigitsAreResidue(v, 4);
    assert Pow256(1) == 0x100 && Pow256(2) == 0x1_0000 && Pow256(3) == 0x100_0000 && Pow256(4) == 0x1_0000_0000;
  }

  /** Four digits as shifted and masked bytes. */
  lemma {:induction false} DigitsInNumbers(v: nat)
    ensures Digits(v, 3) == [v / 0x1_0000 % 0x100, v / 0x100 % 0x100, v % 0x100]
    ensures Digits(v, 4) == [v / 0x100_0000 % 0x100, v / 0x1_0000 % 0x100, v / 0x100 % 0x100, v % 0x100]
  {
    var v1 := v / 0x100;
    var v2 := v1 / 0x100;
    var v3 := v2 / 0x100;
    assert v2 == v / 0x1_0000 && v3 == v / 0x100_0000;
    assert Digits(v3, 0) == [] && Digits(v3, 1) == [v3 % 0x100];
    assert Digits(v2, 1) == [v2 % 0x100] && Digits(v2, 2) == [v3 % 0x100, v2 % 0x100];
    assert Digits(v1, 2) == [v2 % 0x100, v1 % 0x100] && Digits(v1, 3) == [v3 % 0x100, v2 % 0x100, v1 % 0x100];
  }

  /** A big-endian u32 in numbers. */
  lemma {:induction false} NumberOfFour(b: seq<Byte>)
    requires |b| == 4
    ensures Number(b) == 0x100_0000 * (b[0] as int) + 0x1_0000 * (b[1] as int) + 0x100 * (b[2] as int) + b[3] as int
  {
    assert b[..3][..2] == b[..2] && b[..2][..1] == b[..1] && b[..1][..0] == [];
    assert Number(b[..1]) == b[0] as int;
    assert Number(b[..2]) == 0x100 * (b[0] as int) + b[1] as int;
    assert Number(b[..3]) == 0x1_0000 * (b[0] as int) + 0x100 * (b[1] as int) + b[2] as int;
  }

  lemma {:induction false} ThreeDigits(v: nat)
    ensures Number(Digits(v, 3)) == v % 0x100_0000
  {
    var q := DigitsAreResidue(v, 3);
    assert Pow256(1) == 0x100 && Pow256(2) == 0x1_0000 && Pow256(3) == 0x100_0000;
    ResidueIs(v, q, Number(Digits(v, 3)));
  }

  lemma {:induction false} ResidueIs(x: nat, q: nat, r: nat)
    requires x == q * 0x100_0000 + r && r < 0x100_0000
    ensures x % 0x100_0000 == r
  {
  }

  // ----- FINS/TCP framing -----

  /** The four letters `FINS`. */
  const MAGIC: seq<Byte> := [0x46, 0x49, 0x4E, 0x53]

  /** Magic, length of the payload truncated to a big-endian u32, payload. */
  function Wrap(payload: seq<Byte>): (r: seq<Byte>)
    ensures |r| == 8 + |payload|
  {
    MAGIC + Digits(|payload|, 4) + payload
  }

  datatype FrameError = HeaderMissing | PayloadMissing

  /** A payload taken off a byte stream and the bytes left behind it. */
  datatype Framed = Framed(payload: seq<Byte>, rest: seq<Byte>)

  /** Read one frame: eight header bytes, of which the last four are the length, then the payload. */
  function Deframe(stream: seq<Byte>): Result<Framed, FrameError>
  {
    if |stream| < 8 then Err(HeaderMissing)
    else
      var len := Number(stream[4..8]);
      if |stream| < 8 + len then Err(PayloadMissing)
      else Ok(Framed(stream[8..8 + len], stream[8 + len..]))
  }

  lemma {:induction false} DeframeWrapped(payload: seq<Byte>, more: seq<Byte>)
    requires |payload| < 0x1_0000_0000
    ensures Deframe(Wrap(payload) + more) == Ok(Framed(payload, more))
  {
    var s, len := Wrap(payload) + more, Digits(|payload|, 4);
    FourDigits(|payload|);
    Regroup(s, MAGIC, len, payload, more);
    MiddleOf(s, MAGIC, len, payload + more);
    FrameBody(s, MAGIC + len, payload, more);
    assert s[4..8] == len;
  }

  lemma {:induction false} Regroup(s: seq<Byte>, a: seq<Byte>, b: seq<Byte>, c: seq<Byte>, d: seq<Byte>)
    requires s == a + b + c + d
    ensures s == a + (b + (c + d)) && s == (a + b) + (c + d)
  {
    assert a + b + c + d == (a + b) + (c + d);
    assert (a + b) + (c + d) == a + (b + (c + d));
  }

  lemma {:induction false} FrameBody(s: seq<Byte>, header: seq<Byte>, payload: seq<Byte>, more: seq<Byte>)
    requires s == header + (payload + more)
    ensures s[|header|..|header| + |payload|] == payload && s[|header| + |payload|..] == more
  {
    MiddleOf(s, header, payload, more);
    SuffixOf(s, header, payload, more);
  }

  function WrapAll(payloads: seq<seq<Byte>>): seq<Byte>
  {
    if payloads == [] then [] else Wrap(payloads[0]) + WrapAll(payloads[1..])
  }

  /** Take frames off a stream until none is complete. */
  function DeframeAll(stream: seq<Byte>): seq<seq<Byte>>
    decreases |stream|
  {
    match Deframe(stream)
    case Err(_) => []
    case Ok(f) => [f.payload] + DeframeAll(f.rest)
  }

  /** Framing is lossless: any list of payloads sent back to back is received as that list. */
  lemma {:induction false} DeframeInvertsWrap(payloads: seq<seq<Byte>>)
    requires forall i :: 0 <= i < |payloads| ==> |payloads[i]| < 0x1_0000_0000
    ensures DeframeAll(WrapAll(payloads)) == payloads
  {
    if payloads != [] {
      DeframeWrapped(payloads[0], WrapAll(payloads[1..]));
      DeframeInvertsWrap(payloads[1..]);
    }
  }

  // ----- commands -----

  const MEMORY_READ: (Byte, Byte) := (1, 1)
  const MEMORY_WRITE: (Byte, Byte) := (1, 2)

  /** Ten header bytes with the session id last, the command code, the parameters. */
  function BuildFinsFrame(sid: Byte, command: (Byte, Byte), params: seq<Byte>): (r: seq<Byte>)
    ensures |r| == 12 + |params|
  {
    [0x80, 0, 2, 0, 0, 0, 0, 0, 0, sid, command.0, command.1] + params
  }

  /** Area, 24 bits of the address, bit offset, count. */
  function AddressBlock(area: Byte, address: U32, bitOffset: Byte, count: Word): (r: seq<Byte>)
    ensures |r| == 7
  {
    [area] + Digits(address, 3) + [bitOffset, count / 256, count % 256]
  }

  function BuildMemoryRead(area: Byte, address: U32, bitOffset: Byte, wordCount: Word): seq<Byte>
  {
    AddressBlock(area, address, bitOffset, wordCount)
  }

  /** The word count is truncated to u16. */
  function BuildMemoryWrite(area: Byte, address: U32, bitOffset: Byte, words: seq<Word>): seq<Byte>
  {
    AddressBlock(area, address, bitOffset, |words| % 0x1_0000) + ToBytes(words)
  }

  /** A memory block as the controller reads it. */
  datatype Block = Block(area: Byte, address: nat, bitOffset: Byte, count: Word)

  function ParseBlock(p: seq<Byte>): Block
    requires |p| >= 7
  {
    Block(p[0], Number(p[1..4]), p[4], JoinBytes(p[5], p[6]))
  }

  /** The controller reads the block that was built, the address modulo 2^24. */
  lemma {:induction false} BlockParses(area: Byte, address: U32, bitOffset: Byte, count: Word, more: seq<Byte>)
    ensures ParseBlock(AddressBlock(area, address, bitOffset, count) + more) ==
            Block(area, address % 0x100_0000, bitOffset, count)
  {
    ThreeDigits(address);
    var p := AddressBlock(area, address, bitOffset, count) + more;
    assert p[1..4] == Digits(address, 3);
    assert p[5] == count / 256 && p[6] == count % 256;
  }

  /** The frame carries 24 address bits: an address survives exactly when it is below 2^24. */
  lemma {:induction false} AddressSurvives(area: Byte, address: U32, bitOffset: Byte, count: Word, more: seq<Byte>)
    ensures ParseBlock(AddressBlock(area, address, bitOffset, count) + more).address == address <==> address < 0x100_0000
  {
    BlockParses(area, address, bitOffset, count, more);
    BelowModulus(address);
  }

  lemma {:induction false} BelowModulus(x: nat)
    ensures x % 0x100_0000 == x <==> x < 0x100_0000
  {
  }

  // ----- responses -----

  /** A response frame: ten header bytes with the session id last, command, end code, data. */
  function BuildResponse(sid: Byte, command: (Byte, Byte), endCode: Word, data: seq<Byte>): (r: seq<Byte>)
    ensures |r| == 14 + |data|
  {
    [0xC0, 0, 2, 0, 0, 0, 0, 0, 0, sid, command.0, command.1, endCode / 256, endCode % 256] + data
  }

  datatype Response = Response(sid: Byte, endCode: Word, data: seq<Byte>)

  /** Session id at offset 9, end code at 12, data behind; fewer than 14 bytes are an error. */
  function ParseFinsResponse(frame: seq<Byte>): Result<Response, ErrorReason>
  {
    if |frame| < 14 then Err(ParseFailed)
    else Ok(Response(frame[9], JoinBytes(frame[12], frame[13]), frame[14..]))
  }

  lemma {:induction false} ResponseParses(sid: Byte, command: (Byte, Byte), endCode: Word, data: seq<Byte>)
    ensures ParseFinsResponse(BuildResponse(sid, command, endCode, data)) == Ok(Response(sid, endCode, data))
  {
    assert BuildResponse(sid, command, endCode, data)[14..] == data;
  }

  // ----- session ids -----

  /** The wrapping increment of the session counter (`fetch_add` on a u8). */
  function NextSid(sid: Byte): Byte
  {
    (sid + 1) % 0x100
  }

  /** The session id of the request sent `k` requests after one with id `sid`. */
  function SidAfter(sid: Byte, k: nat): Byte
    decreases k
  {
    if k == 0 then sid else SidAfter(NextSid(sid), k - 1)
  }

  lemma {:induction false} SidClosedForm(sid: Byte, k: nat)
    ensures SidAfter(sid, k) == (sid + k) % 0x100
    decreases k
  {
    if k > 0 {
      SidClosedForm(NextSid(sid), k - 1);
      if sid == 0xFF {
        assert (sid + k) % 0x100 == (k - 1) % 0x100;
      }
    }
  }

  /** Two requests share a session id exactly when a multiple of 256 requests lies between them. */
  lemma {:induction false} SidsRepeatEvery256(sid: Byte, i: nat, j: nat)
    requires i <= j
    ensures SidAfter(sid, i) == SidAfter(sid, j) <==> (j - i) % 0x100 == 0
  {
    SidClosedForm(sid, i);
    SidClosedForm(sid, j);
    SameResidue(sid + i, sid + j);
  }

  lemma {:induction false} SameResidue(a: nat, b: nat)
    requires a <= b
    ensures a % 0x100 == b % 0x100 <==> (b - a) % 0x100 == 0
  {
  }
}
