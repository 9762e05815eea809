/** Fixed-width integers and the big-endian byte layout shared by both protocol drivers. */
module Words {

  type Byte = x: int | 0 <= x < 0x100
  type Word = x: int | 0 <= x < 0x1_0000
  type U32 = x: int | 0 <= x < 0x1_0000_0000
  type U64 = x: int | 0 <= x < 0x1_0000_0000_0000_0000
  type I16 = x: int | -0x8000 <= x < 0x8000
  type I32 = x: int | -0x8000_0000 <= x < 0x8000_0000
  type I64 = x: int | -0x8000_0000_0000_0000 <= x < 0x8000_0000_0000_0000

  /** Big-endian bytes of a word sequence: two bytes a word, high byte first. */
  function ToBytes(ws: seq<Word>): (bs: seq<Byte>)
    ensures |bs| == 2 * |ws|
  {
    if ws == [] then [] else [ws[0] / 256, ws[0] % 256] + ToBytes(ws[1..])
  }

  /** Big-endian word of two bytes. */
  function JoinBytes(hi: Byte, lo: Byte): Word
  {
    256 * (hi as int) + lo as int
  }

  /** Big-endian words of a byte sequence; a trailing odd byte is not read. */
  function ToWords(bs: seq<Byte>): (ws: seq<Word>)
    ensures |ws| == |bs| / 2
  {
    if |bs| < 2 then [] else [JoinBytes(bs[0], bs[1])] + ToWords(bs[2..])
  }

  lemma {:induction false} WordsSurviveBytes(ws: seq<Word>)
    ensures ToWords(ToBytes(ws)) == ws
  {
    if ws != [] {
      WordsSurviveBytes(ws[1..]);
      assert ToBytes(ws)[2..] == ToBytes(ws[1..]);
    }
  }

  lemma {:induction false} BytesSurviveWords(bs: seq<Byte>)
    requires |bs| % 2 == 0
    ensures ToBytes(ToWords(bs)) == bs
  {
    if |bs| >= 2 {
      BytesSurviveWords(bs[2..]);
      assert ToWords(bs)[1..] == ToWords(bs[2..]);
    }
  }

  lemma {:induction false} BytesOfConcat(a: seq<Word>, b: seq<Word>)
    ensures ToBytes(a + b) == ToBytes(a) + ToBytes(b)
  {
    if a == [] {
      assert a + b == b;
    } else {
      BytesOfConcat(a[1..], b);
      HeadAndTail(a, b);
      ThreePieces([a[0] / 256, a[0] % 256], ToBytes(a[1..]), ToBytes(b));
    }
  }

  lemma {:induction false} HeadAndTail(a: seq<Word>, b: seq<Word>)
    requires a != []
    ensures (a + b)[0] == a[0] && (a + b)[1..] == a[1..] + b
  {
  }

  lemma {:induction false} ThreePieces(a: seq<Byte>, b: seq<Byte>, c: seq<Byte>)
    ensures a + (b + c) == (a + b) + c
  {
  }

  lemma {:induction false} WordsOfConcat(a: seq<Byte>, b: seq<Byte>)
    requires |a| % 2 == 0
    ensures ToWords(a + b) == ToWords(a) + ToWords(b)
  {
    if a == [] {
      assert a + b == b;
    } else {
      WordsOfConcat(a[2..], b);
      var ab := a + b;
      assert ab[0] == a[0] && ab[1] == a[1] && ab[2..] == a[2..] + b;
    }
  }

  /** Cutting a byte image at word boundaries is the byte image of the cut words. */
  lemma {:induction false} SliceOfBytes(ws: seq<Word>, i: nat, j: nat)
    requires i <= j <= |ws|
    ensures ToBytes(ws)[2 * i..2 * j] == ToBytes(ws[i..j])
  {
    BytesOfCut(ws, j);
    BytesOfCut(ws[..j], i);
    CutTwice(ToBytes(ws), 2 * i, 2 * j);
    assert ws[..j][i..] == ws[i..j];
  }

  lemma {:induction false} CutTwice(bs: seq<Byte>, i: nat, j: nat)
    requires i <= j <= |bs|
    ensures bs[..j][i..] == bs[i..j]
  {
  }

  lemma {:induction false} BytesOfCut(ws: seq<Word>, k: nat)
    requires k <= |ws|
    ensures ToBytes(ws)[..2 * k] == ToBytes(ws[..k])
    ensures ToBytes(ws)[2 * k..] == ToBytes(ws[k..])
  {
    var a, b := ws[..k], ws[k..];
    Rejoined(ws, k);
    BytesOfConcat(a, b);
    CutOfConcat(ToBytes(a), ToBytes(b));
  }

  lemma {:induction false} Rejoined(ws: seq<Word>, k: nat)
    requires k <= |ws|
    ensures ws[..k] + ws[k..] == ws
  {
  }

  lemma {:induction false} CutOfConcat(a: seq<Byte>, b: seq<Byte>)
    ensures (a + b)[..|a|] == a && (a + b)[|a|..] == b
  {
  }

  lemma {:induction false} MiddleOf(s: seq<Byte>, a: seq<Byte>, b: seq<Byte>, c: seq<Byte>)
    requires s == a + (b + c)
    ensures s[|a|..|a| + |b|] == b
  {
  }

  lemma {:induction false} SuffixOf(s: seq<Byte>, a: seq<Byte>, b: seq<Byte>, c: seq<Byte>)
    requires s == a + (b + c)
    ensures s[|a| + |b|..] == c
  {
  }

  /** The bytes of word `k`. */
  lemma {:induction false} BytesOfWord(ws: seq<Word>, k: nat)
    requires k < |ws|
    ensures ToBytes(ws)[2 * k] == ws[k] / 256 && ToBytes(ws)[2 * k + 1] == ws[k] % 256
  {
    if k > 0 {
      BytesOfWord(ws[1..], k - 1);
    }
  }

  /** Pad to an even length with one zero byte. */
  function Pad(bs: seq<Byte>): (r: seq<Byte>)
    ensures |r| % 2 == 0 && bs <= r
  {
    if |bs| % 2 == 0 then bs else bs + [0]
  }

  /** Bit `b` of `w`: shift right `b` times, keep the lowest bit. */
  predicate Bit(w: nat, b: nat)
  {
    if b == 0 then w % 2 == 1 else Bit(w / 2, b - 1)
  }

  lemma {:induction false} ZeroHasNoBits(b: nat)
    ensures !Bit(0, b)
  {
    if b > 0 {
      ZeroHasNoBits(b - 1);
    }
  }

  /** Two's complement reinterpretation of a signed integer on `modulus` values (`as u16`, `as u32`, `as u64`). */
  function Unsigned(x: int, modulus: nat): (r: nat)
    requires 0 <= x + modulus && x < modulus
    ensures r < modulus
  {
    if x < 0 then x + modulus else x
  }

  /** The inverse reinterpretation (`as i16`, `as i32`, `as i64`). */
  function Signed(x: nat, modulus: nat): int
    requires modulus > 0
  {
    if 2 * x < modulus then x else x - modulus
  }

  // ----- shifts and masks of the 32- and 64-bit values -----

  /** `[(v >> 16) & 0xFFFF, v & 0xFFFF]`. */
  function U32ToWords(v: U32): seq<Word>
  {
    [v / 0x1_0000, v % 0x1_0000]
  }

  /** `[(v >> 48) & 0xFFFF, (v >> 32) & 0xFFFF, (v >> 16) & 0xFFFF, v & 0xFFFF]`. */
  function U64ToWords(v: U64): seq<Word>
  {
    [v / 0x1_0000_0000_0000, (v / 0x1_0000_0000) % 0x1_0000, (v / 0x1_0000) % 0x1_0000, v % 0x1_0000]
  }

  /** `(hi << 16) | lo`: the two halves share no bit, so the disjunction is a sum. */
  function Join32(hi: Word, lo: Word): U32
  {
    (hi as int) * 0x1_0000 + lo as int
  }

  /** `(w0 << 48) | (w1 << 32) | (w2 << 16) | w3`. */
  function Join64(w0: Word, w1: Word, w2: Word, w3: Word): U64
  {
    (w0 as int) * 0x1_0000_0000_0000 + (w1 as int) * 0x1_0000_0000 + (w2 as int) * 0x1_0000 + w3 as int
  }

  /** Big-endian u32 of four bytes. */
  function Be32(b: seq<Byte>): U32
    requires |b| == 4
  {
    Join32(JoinBytes(b[0], b[1]), JoinBytes(b[2], b[3]))
  }

  lemma {:induction false} Join64OfWords(v: U64)
    ensures var w := U64ToWords(v); Join64(w[0], w[1], w[2], w[3]) == v
  {
    var a := v / 0x1_0000;
    var b := a / 0x1_0000;
    assert b == v / 0x1_0000_0000;
    assert b / 0x1_0000 == v / 0x1_0000_0000_0000;
  }

  // ----- small arithmetic -----

  function Min(a: int, b: int): int { if a < b then a else b }

  function Max(a: int, b: int): int { if a < b then b else a }

  // ----- concatenation -----

  lemma {:induction false} Associate<T>(a: seq<T>, b: seq<T>, c: seq<T>)
    ensures (a + b) + c == a + (b + c)
  {
  }

  lemma {:induction false} Neutral<T>(a: seq<T>)
    ensures a + [] == a && [] + a == a
  {
  }
}
