/** Byte and word orders of multi-register values: the in-place loops and the permutations they perform. */
module WordOrders {
  import opened Words

  datatype WordOrder = ABCD | BADC | CDAB | DCBA

  /** One complete four-byte chunk in the given order. */
  function Chunk(order: WordOrder, c: seq<Byte>): (r: seq<Byte>)
    requires |c| == 4
    ensures |r| == 4
  {
    match order
    case ABCD => c
    case BADC => [c[1], c[0], c[3], c[2]]
    case CDAB => [c[2], c[3], c[0], c[1]]
    case DCBA => [c[3], c[2], c[1], c[0]]
  }

  /** The one to three bytes behind the last complete chunk. */
  function Tail(order: WordOrder, t: seq<Byte>): (r: seq<Byte>)
    requires |t| < 4
    ensures |r| == |t|
  {
    if (order == BADC || order == DCBA) && |t| >= 2 then [t[1], t[0]] + t[2..] else t
  }

  /** `bytes` rearranged in the given order. */
  function Reordered(order: WordOrder, bytes: seq<Byte>): (r: seq<Byte>)
    ensures |r| == |bytes|
  {
    if |bytes| < 4 then Tail(order, bytes)
    else Chunk(order, bytes[..4]) + Reordered(order, bytes[4..])
  }

  /** The order equal to applying `b` and then `a`. */
  function Compose(a: WordOrder, b: WordOrder): WordOrder
  {
    match (a, b)
    case (ABCD, x) => x
    case (x, ABCD) => x
    case (BADC, CDAB) => DCBA
    case (CDAB, BADC) => DCBA
    case (BADC, DCBA) => CDAB
    case (DCBA, BADC) => CDAB
    case (CDAB, DCBA) => BADC
    case (DCBA, CDAB) => BADC
    case _ => ABCD
  }

  lemma {:induction false} ComposedReordering(a: WordOrder, b: WordOrder, bytes: seq<Byte>)
    ensures Reordered(a, Reordered(b, bytes)) == Reordered(Compose(a, b), bytes)
  {
    if |bytes| >= 4 {
      ComposedReordering(a, b, bytes[4..]);
      var inner := Reordered(b, bytes);
      assert inner[..4] == Chunk(b, bytes[..4]) && inner[4..] == Reordered(b, bytes[4..]);
    }
  }

  /**
   * The four orders form a commutative group under composition on buffers of every length:
   * closed by the table `Compose`, `ABCD` neutral, every order its own inverse.
   */
  lemma {:induction false} OrdersFormAGroup(a: WordOrder, b: WordOrder, bytes: seq<Byte>)
    ensures Reordered(a, Reordered(b, bytes)) == Reordered(Compose(a, b), bytes)
    ensures Reordered(a, Reordered(b, bytes)) == Reordered(b, Reordered(a, bytes))
    ensures Reordered(ABCD, bytes) == bytes
    ensures Reordered(a, Reordered(a, bytes)) == bytes
    ensures Reordered(DCBA, bytes) == Reordered(BADC, Reordered(CDAB, bytes))
  {
    ComposedReordering(a, b, bytes);
    ComposedReordering(b, a, bytes);
    ComposedReordering(a, a, bytes);
    ComposedReordering(BADC, CDAB, bytes);
    IdentityOrder(bytes);
  }

  lemma {:induction false} IdentityOrder(bytes: seq<Byte>)
    ensures Reordered(ABCD, bytes) == bytes
  {
    if |bytes| >= 4 {
      IdentityOrder(bytes[4..]);
    }
  }

  /** Reordering loses and invents no byte. */
  lemma {:induction false} ReorderingPermutes(order: WordOrder, bytes: seq<Byte>)
    ensures multiset(Reordered(order, bytes)) == multiset(bytes)
  {
    if |bytes| >= 4 {
      ReorderingPermutes(order, bytes[4..]);
      ChunkPermutes(order, bytes[..4]);
      SplitMultiset(bytes, bytes[..4], bytes[4..]);
      SplitMultiset(Reordered(order, bytes), Chunk(order, bytes[..4]), Reordered(order, bytes[4..]));
    } else {
      TailPermutes(order, bytes);
    }
  }

  lemma {:induction false} SplitMultiset(s: seq<Byte>, a: seq<Byte>, b: seq<Byte>)
    requires s == a + b
    ensures multiset(s) == multiset(a) + multiset(b)
  {
  }

  lemma {:induction false} ChunkPermutes(order: WordOrder, c: seq<Byte>)
    requires |c| == 4
    ensures multiset(Chunk(order, c)) == multiset(c)
  {
    ChunkPairs(order, c);
    HalvesPermute(c, Chunk(order, c), order == CDAB || order == DCBA);
  }

  lemma {:induction false} ChunkPairs(order: WordOrder, c: seq<Byte>)
    requires |c| == 4
    ensures var r := Chunk(order, c);
            if order == CDAB || order == DCBA then SamePair(c[..2], r[2..]) && SamePair(c[2..], r[..2])
            else SamePair(c[..2], r[..2]) && SamePair(c[2..], r[2..])
  {
    if order == CDAB {
      var r := Chunk(order, c);
      assert r[2..] == c[..2] && r[..2] == c[2..];
    }
  }

  /** Two chunks with the same words up to the order of words and of bytes in words. */
  lemma {:induction false} HalvesPermute(c: seq<Byte>, r: seq<Byte>, crossed: bool)
    requires |c| == |r| == 4
    requires crossed ==> SamePair(c[..2], r[2..]) && SamePair(c[2..], r[..2])
    requires !crossed ==> SamePair(c[..2], r[..2]) && SamePair(c[2..], r[2..])
    ensures multiset(c) == multiset(r)
  {
    SplitMultiset(c, c[..2], c[2..]);
    SplitMultiset(r, r[..2], r[2..]);
    Crossed(c[..2], if crossed then r[2..] else r[..2]);
    Crossed(c[2..], if crossed then r[..2] else r[2..]);
  }

  predicate SamePair(a: seq<Byte>, b: seq<Byte>)
  {
    |a| == |b| == 2 && (a == b || (a[0] == b[1] && a[1] == b[0]))
  }

  lemma {:induction false} Crossed(a: seq<Byte>, b: seq<Byte>)
    requires SamePair(a, b)
    ensures multiset(a) == multiset(b)
  {
    SplitMultiset(a, [a[0]], [a[1]]);
    SplitMultiset(b, [b[0]], [b[1]]);
  }

  lemma {:induction false} TailPermutes(order: WordOrder, t: seq<Byte>)
    requires |t| < 4
    ensures multiset(Tail(order, t)) == multiset(t)
  {
    if |t| >= 2 {
      SplitMultiset(t, t[..2], t[2..]);
      assert t[..2] == [t[0], t[1]];
      SplitMultiset([t[1], t[0]] + t[2..], [t[1], t[0]], t[2..]);
    }
  }

  /** Reordering is local to chunks: it distributes over a cut at a chunk boundary. */
  lemma {:induction false} ReorderedConcat(order: WordOrder, a: seq<Byte>, c: seq<Byte>)
    requires |a| % 4 == 0
    ensures Reordered(order, a + c) == Reordered(order, a) + Reordered(order, c)
  {
    if |a| == 0 {
      assert a + c == c;
    } else {
      ReorderedConcat(order, a[4..], c);
      CutConcat(a, c);
    }
  }

  lemma {:induction false} CutConcat(a: seq<Byte>, c: seq<Byte>)
    requires |a| >= 4
    ensures (a + c)[..4] == a[..4] && (a + c)[4..] == a[4..] + c
  {
  }

  /** Swapping bytes within words is local to words. */
  lemma {:induction false} ByteSwapStep(bytes: seq<Byte>)
    requires |bytes| >= 2
    ensures Reordered(BADC, bytes) == [bytes[1], bytes[0]] + Reordered(BADC, bytes[2..])
  {
    if |bytes| >= 4 {
      if |bytes| >= 6 {
        ByteSwapStep(bytes[4..]);
        ByteSwapStep(bytes[2..]);
        assert bytes[2..][4..] == bytes[4..][2..];
      }
      assert bytes[2..][2..] == bytes[4..];
    }
  }

  /** A buffer that repeats one byte looks the same in every order. */
  lemma {:induction false} ConstantIsFixed(order: WordOrder, bytes: seq<Byte>, b: Byte)
    requires forall i :: 0 <= i < |bytes| ==> bytes[i] == b
    ensures Reordered(order, bytes) == bytes
  {
    if |bytes| >= 4 {
      ConstantIsFixed(order, bytes[4..], b);
      assert bytes == [b, b, b, b] + bytes[4..];
    }
  }

  // ----- the loops over the mutable buffer -----

  /** Exchange the bytes at two positions. */
  method Swap(bytes: array<Byte>, i: nat, j: nat)
    requires i < j < bytes.Length
    modifies bytes
    ensures bytes[i] == old(bytes[j]) && bytes[j] == old(bytes[i])
    ensures forall k :: 0 <= k < bytes.Length && k != i && k != j ==> bytes[k] == old(bytes[k])
  {
    bytes[i], bytes[j] := bytes[j], bytes[i];
  }

  /** What reordering leaves at the positions of the chunk number `q`. */
  lemma {:induction false} ChunkGoal(order: WordOrder, was: seq<Byte>, q: nat)
    requires 4 * q + 4 <= |was|
    ensures Reordered(order, was)[4 * q..4 * q + 4] == Chunk(order, was[4 * q..4 * q + 4])
  {
    var i := 4 * q;
    if q == 0 {
      assert was[..4] == was[i..i + 4];
    } else {
      ChunkGoal(order, was[4..], q - 1);
      SliceOfRest(was[..4], was[4..], was, i);
      SliceOfRest(Chunk(order, was[..4]), Reordered(order, was[4..]), Reordered(order, was), i);
    }
  }

  lemma {:induction false} SliceOfRest(first: seq<Byte>, rest: seq<Byte>, s: seq<Byte>, i: nat)
    requires |first| == 4 <= i <= i + 4 <= |s| && s == first + rest
    ensures s[i..i + 4] == rest[i - 4..i]
  {
  }

  /** What reordering leaves behind the last complete chunk. */
  lemma {:induction false} TailGoal(order: WordOrder, was: seq<Byte>, q: nat)
    requires 4 * q <= |was| < 4 * q + 4
    ensures Reordered(order, was)[4 * q..] == Tail(order, was[4 * q..])
  {
    var i := 4 * q;
    if q == 0 {
      assert was == was[i..];
    } else {
      TailGoal(order, was[4..], q - 1);
      assert was[4..][i - 4..] == was[i..];
      assert Reordered(order, was)[i..] == Reordered(order, was[4..])[i - 4..];
    }
  }

  /** What swapping bytes within words leaves at the positions of word number `q`. */
  lemma {:induction false} WordGoal(was: seq<Byte>, q: nat)
    requires 2 * q + 2 <= |was|
    ensures Reordered(BADC, was)[2 * q] == was[2 * q + 1]
    ensures Reordered(BADC, was)[2 * q + 1] == was[2 * q]
  {
    ByteSwapStep(was);
    if q > 0 {
      WordGoal(was[2..], q - 1);
    }
  }

  /** Swapping bytes within words leaves a trailing odd byte in place. */
  lemma {:induction false} OddByteStays(was: seq<Byte>)
    requires |was| % 2 == 1
    ensures Reordered(BADC, was)[|was| - 1] == was[|was| - 1]
  {
    if |was| >= 2 {
      ByteSwapStep(was);
      OddByteStays(was[2..]);
    }
  }

  /** Swap the two bytes of every complete word. */
  method SwapBytesInWords(bytes: array<Byte>)
    modifies bytes
    ensures bytes[..] == Reordered(BADC, old(bytes[..]))
  {
    ghost var was := bytes[..];
    ghost var goal := Reordered(BADC, was);
    var len := bytes.Length;
    var i := 0;
    ghost var done := 0;
    while i + 1 < len
      invariant 0 <= i <= len && i == 2 * done
      invariant forall k :: 0 <= k < i ==> bytes[k] == goal[k]
      invariant forall k :: i <= k < len ==> bytes[k] == was[k]
    {
      WordGoal(was, done);
      Swap(bytes, i, i + 1);
      i, done := i + 2, done + 1;
    }
    if i < len {
      OddByteStays(was);
    }
  }

  /** Swap the two words of every complete four-byte chunk; a shorter last chunk stays. */
  method SwapWordPairsIn4ByteChunks(bytes: array<Byte>)
    modifies bytes
    ensures bytes[..] == Reordered(CDAB, old(bytes[..]))
  {
    ghost var was := bytes[..];
    ghost var goal := Reordered(CDAB, was);
    var len := bytes.Length;
    var i := 0;
    ghost var done := 0;
    while i + 3 < len
      invariant 0 <= i <= len && i == 4 * done
      invariant forall k :: 0 <= k < i ==> bytes[k] == goal[k]
      invariant forall k :: i <= k < len ==> bytes[k] == was[k]
    {
      ChunkGoal(CDAB, was, done);
      ChunkValues(CDAB, goal, was, i);
      Swap(bytes, i, i + 2);
      Swap(bytes, i + 1, i + 3);
      i, done := i + 4, done + 1;
    }
    TailGoal(CDAB, was, done);
    assert goal[i..] == was[i..];
    assert bytes[..] == goal[..i] + was[i..];
  }

  /** The four bytes of a reordered chunk, one by one. */
  lemma {:induction false} ChunkValues(order: WordOrder, goal: seq<Byte>, was: seq<Byte>, i: nat)
    requires i + 4 <= |goal| == |was| && goal[i..i + 4] == Chunk(order, was[i..i + 4])
    ensures order == CDAB ==>
              goal[i] == was[i + 2] && goal[i + 1] == was[i + 3] && goal[i + 2] == was[i] && goal[i + 3] == was[i + 1]
    ensures order == DCBA ==>
              goal[i] == was[i + 3] && goal[i + 1] == was[i + 2] && goal[i + 2] == was[i + 1] && goal[i + 3] == was[i]
  {
    var c := goal[i..i + 4];
    assert c[0] == goal[i] && c[1] == goal[i + 1] && c[2] == goal[i + 2] && c[3] == goal[i + 3];
  }

  /** Reverse every complete four-byte chunk; swap the first two bytes of a shorter last chunk. */
  method ReverseBytesIn4ByteChunks(bytes: array<Byte>)
    modifies bytes
    ensures bytes[..] == Reordered(DCBA, old(bytes[..]))
  {
    ghost var was := bytes[..];
    ghost var goal := Reordered(DCBA, was);
    var len := bytes.Length;
    var i := 0;
    ghost var done := 0;
    while i + 3 < len
      invariant 0 <= i <= len && i == 4 * done
      invariant forall k :: 0 <= k < i ==> bytes[k] == goal[k]
      invariant forall k :: i <= k < len ==> bytes[k] == was[k]
    {
      ChunkGoal(DCBA, was, done);
      ChunkValues(DCBA, goal, was, i);
      Swap(bytes, i, i + 3);
      Swap(bytes, i + 1, i + 2);
      i, done := i + 4, done + 1;
    }
    SwapRemainder(bytes, was, done);
  }

  /** The bytes behind the last complete chunk: the first two are swapped, if there are two. */
  method SwapRemainder(bytes: array<Byte>, ghost was: seq<Byte>, ghost q: nat)
    requires bytes.Length == |was| && 4 * q <= |was| < 4 * q + 4
    requires forall k :: 0 <= k < 4 * q ==> bytes[k] == Reordered(DCBA, was)[k]
    requires forall k :: 4 * q <= k < |was| ==> bytes[k] == was[k]
    modifies bytes
    ensures bytes[..] == Reordered(DCBA, was)
  {
    var len := bytes.Length;
    TailValues(was, q);
    Remainder(len, q);
    if len % 4 >= 2 {
      var remStart := len - len % 4;
      if remStart + 1 < len {
        Swap(bytes, remStart, remStart + 1);
      }
    }
  }

  lemma {:induction false} TailValues(was: seq<Byte>, q: nat)
    requires 4 * q <= |was| < 4 * q + 4
    ensures var i, goal := 4 * q, Reordered(DCBA, was);
            && (i + 2 <= |was| ==> goal[i] == was[i + 1] && goal[i + 1] == was[i])
            && (i + 1 == |was| ==> goal[i] == was[i])
            && (i + 3 == |was| ==> goal[i + 2] == was[i + 2])
  {
    var i, goal := 4 * q, Reordered(DCBA, was);
    TailGoal(DCBA, was, q);
    var t := goal[i..];
    assert forall k :: 0 <= k < |t| ==> goal[i + k] == t[k];
  }

  lemma {:induction false} Remainder(len: nat, chunks: nat)
    requires 4 * chunks <= len < 4 * chunks + 4
    ensures len % 4 == len - 4 * chunks
  {
  }

  /** Reorder the buffer in place. */
  method ApplyToBytes(order: WordOrder, bytes: array<Byte>)
    modifies bytes
    ensures bytes[..] == Reordered(order, old(bytes[..]))
  {
    match order
    case ABCD => IdentityOrder(bytes[..]);
    case BADC => SwapBytesInWords(bytes);
    case CDAB => SwapWordPairsIn4ByteChunks(bytes);
    case DCBA => ReverseBytesIn4ByteChunks(bytes);
  }

  /** Reorder an owned buffer and hand it back. */
  method ApplyByteOrder(bytes: seq<Byte>, order: WordOrder) returns (r: seq<Byte>)
    ensures r == Reordered(order, bytes)
  {
    var buf := new Byte[|bytes|](i requires 0 <= i < |bytes| => bytes[i]);
    assert buf[..] == bytes;
    ApplyToBytes(order, buf);
    r := buf[..];
  }
}
