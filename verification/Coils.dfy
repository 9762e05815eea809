/** Packing coils into words: sixteen a word, least significant bit first. */
module CoilPacking {
  import opened Words

  /** The number whose bits are `bs`, the first one least significant. */
  function FromBits(bs: seq<bool>): nat
  {
    if bs == [] then 0 else (if bs[0] then 1 else 0) + 2 * FromBits(bs[1..])
  }

  function Pow2(n: nat): nat
  {
    if n == 0 then 1 else 2 * Pow2(n - 1)
  }

  lemma {:induction false} FromBitsBound(bs: seq<bool>)
    ensures FromBits(bs) < Pow2(|bs|)
  {
    if bs != [] {
      FromBitsBound(bs[1..]);
    }
  }

  lemma {:induction false} Pow2Of16()
    ensures Pow2(16) == 0x1_0000
  {
    assert Pow2(4) == 16;
    assert Pow2(8) == 16 * Pow2(4);
    assert Pow2(12) == 16 * Pow2(8);
    assert Pow2(16) == 16 * Pow2(12);
  }

  lemma {:induction false} Pow2Monotone(n: nat, k: nat)
    requires n <= k
    ensures Pow2(n) <= Pow2(k)
  {
    if n < k {
      Pow2Monotone(n, k - 1);
    }
  }

  lemma {:induction false} SixteenBitsFit(bs: seq<bool>)
    requires |bs| <= 16
    ensures FromBits(bs) < 0x1_0000
  {
    FromBitsBound(bs);
    Pow2Monotone(|bs|, 16);
    Pow2Of16();
  }

  /** Bit `b` of the packed number is element `b`, and false behind the last. */
  lemma {:induction false} FromBitsBit(bs: seq<bool>, b: nat)
    ensures Bit(FromBits(bs), b) <==> b < |bs| && bs[b]
  {
    if bs == [] {
      ZeroHasNoBits(b);
    } else if b > 0 {
      FromBitsBit(bs[1..], b - 1);
      assert FromBits(bs) / 2 == FromBits(bs[1..]);
    }
  }

  lemma {:induction false} FromBitsAppend(bs: seq<bool>, b: bool)
    ensures FromBits(bs + [b]) == FromBits(bs) + if b then Pow2(|bs|) else 0
  {
    if bs == [] {
      assert bs + [b] == [b];
    } else {
      FromBitsAppend(bs[1..], b);
      assert (bs + [b])[1..] == bs[1..] + [b];
    }
  }

  /** A word for every sixteen bits or part of it. */
  function Packed(bits: seq<bool>): (ws: seq<Word>)
    ensures |ws| == (|bits| + 15) / 16
  {
    if bits == [] then []
    else
      var n := Min(|bits|, 16);
      SixteenBitsFit(bits[..n]);
      [FromBits(bits[..n])] + Packed(bits[n..])
  }

  /** Coil `16 * w + b` is bit `b` of word `w`; bits behind the last coil are zero. */
  lemma {:induction false} PackedBit(bits: seq<bool>, w: nat, b: nat)
    requires b < 16 && w < |Packed(bits)|
    ensures Bit(Packed(bits)[w], b) <==> 16 * w + b < |bits| && bits[16 * w + b]
  {
    var n := Min(|bits|, 16);
    if w == 0 {
      FromBitsBit(bits[..n], b);
    } else {
      PackedBit(bits[n..], w - 1, b);
    }
  }

  /** The packing loop of the Modbus driver: a word at a time, each bit set by shifting a one. */
  method PackCoils(bits: seq<bool>) returns (regs: seq<Word>)
    ensures regs == Packed(bits)
  {
    regs := [];
    var i := 0;
    while i < |bits|
      invariant 0 <= i
      invariant i <= |bits| ==> regs + Packed(bits[i..]) == Packed(bits)
      invariant i > |bits| ==> regs == Packed(bits)
    {
      var w := PackWord(bits, i);
      PackStep(bits[i..]);
      assert i + 16 <= |bits| ==> bits[i..][16..] == bits[i + 16..];
      regs := regs + [w];
      i := i + 16;
    }
  }

  lemma {:induction false} PackStep(rest: seq<bool>)
    requires rest != []
    ensures var n := Min(|rest|, 16);
            Packed(rest) == [FromBits(rest[..n])] + if |rest| <= 16 then [] else Packed(rest[16..])
  {
    if |rest| <= 16 {
      assert rest[|rest|..] == [];
    }
  }

  /** The inner loop: up to sixteen bits from position `i`. */
  method PackWord(bits: seq<bool>, i: nat) returns (w: Word)
    requires i < |bits|
    ensures w == FromBits(bits[i..][..Min(|bits| - i, 16)])
  {
    var rest := bits[i..];
    w := 0;
    Pow2Of16();
    for bit := 0 to 16
      invariant w == FromBits(rest[..Min(|rest|, bit)])
    {
      ghost var n := Min(|rest|, bit);
      SixteenBitsFit(rest[..Min(|rest|, bit + 1)]);
      if i + bit < |bits| {
        FromBitsAppend(rest[..n], rest[n]);
        assert rest[..n] + [rest[n]] == rest[..n + 1];
        if bits[i + bit] {
          // `w |= 1 << bit`: the bit is still zero, so the disjunction is a sum
          w := w + Pow2(bit);
        }
      }
    }
  }
}
